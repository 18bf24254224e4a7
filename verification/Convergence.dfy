/** When every watcher of an interleaved run ends up with the server's table, and when it need not. */
module Convergence {
  import opened Basics
  import opened Affiliates
  import opened Registry
  import opened Interleaving
  import W = WatchRuns
  import V = WatchViews
  import opened PerAffiliate
  import PruneLaws

  /** Some event about affiliate `id` is committed and not yet fully delivered. */
  ghost predicate InFlight(s: System, id: Id) {
    exists tid, n: nat :: tid in s.tasks && n in s.tasks[tid].tags && n < |s.log| && EventId(s.log[n]) == id
  }

  /** A commit that announces nothing about affiliates still being announced, and does not fail visibly. */
  ghost predicate Separate(s: System, a: Step) {
    a.Commit? ==>
      V.Clean(s.table, a.op) &&
      forall ev :: ev in W.EventsOf(s.table, a.op) ==> !InFlight(s, EventId(ev))
  }

  ghost predicate SeparateRun(s: System, steps: seq<Step>)
    requires RunFrom(s, steps).Some?
    decreases |steps|
  {
    steps == [] || (
      SeparateRun(s, steps[..|steps| - 1]) &&
      Separate(RunFrom(s, steps[..|steps| - 1]).value, steps[|steps| - 1])
    )
  }

  // ----- what a watcher has -----

  ghost function EventsAt(log: seq<Event>, tags: seq<nat>): seq<Event>
    requires Within(tags, |log|)
  {
    if tags == [] then [] else EventsAt(log, tags[..|tags| - 1]) + [log[tags[|tags| - 1]]]
  }

  /** The copy of a client that has replayed everything put in its channel. */
  ghost function Copy(s: System, i: nat): Mirror
    requires i < |s.watchers| && NothingMissed(s, i)
  {
    Replay(s.watchers[i].base, EventsAt(s.log, s.watchers[i].got))
  }

  /** Nothing committed so far is still to be offered to watcher i. */
  ghost predicate Settled(s: System, i: nat) {
    forall n: nat :: !Pending(s, n, i)
  }

  ghost predicate PendingAbout(s: System, i: nat, id: Id) {
    exists n: nat :: Pending(s, n, i) && n < |s.log| && EventId(s.log[n]) == id
  }

  ghost predicate Flying(s: System, t: nat, n: nat) {
    t in s.tasks && n in s.tasks[t].tags && n < |s.log|
  }

  ghost predicate FlightsCurrent(s: System) {
    forall tid, n: nat :: tid in s.tasks && n in s.tasks[tid].tags && n < |s.log| ==> Current(s.log[n], s.table)
  }

  ghost predicate FlightsDistinct(s: System) {
    forall t, n: nat, t', n': nat ::
      Flying(s, t, n) && Flying(s, t', n') && EventId(s.log[n]) == EventId(s.log[n']) ==> n == n'
  }

  /** Where watcher i does not have the table's value, an event that will give it that value is on its way. */
  ghost predicate Converging(s: System, i: nat)
    requires i < |s.watchers| && NothingMissed(s, i)
  {
    s.watchers[i].open ==> forall id :: AgreesAt(Copy(s, i), s.table, id) || PendingAbout(s, i, id)
  }

  ghost predicate Invariant(s: System) {
    && Complete(s) && ValidTable(s.table)
    && FlightsCurrent(s) && FlightsDistinct(s)
    && forall i :: 0 <= i < |s.watchers| ==> NothingMissed(s, i) && Converging(s, i)
  }

  // ----- one step -----

  lemma {:induction false} EventsAtGrows(log: seq<Event>, more: seq<Event>, tags: seq<nat>)
    requires Within(tags, |log|)
    ensures EventsAt(log + more, tags) == EventsAt(log, tags)
    decreases |tags|
  {
    if tags != [] {
      EventsAtGrows(log, more, tags[..|tags| - 1]);
    }
  }

  lemma CopyAfterOffer(log: seq<Event>, base: Mirror, got: seq<nat>, tag: nat)
    requires tag < |log| && Within(got, |log|)
    ensures Replay(base, EventsAt(log, got + [tag])) == Apply(Replay(base, EventsAt(log, got)), log[tag])
  {
    assert (got + [tag])[..|got|] == got;
    ReplaySnoc(base, EventsAt(log, got), log[tag]);
  }

  lemma TaskTag(s: System, tid: nat, n: nat)
    requires TagsValid(s) && tid in s.tasks && n in s.tasks[tid].tags
    ensures n < |s.log|
  {
  }

  lemma FlightStaysCurrent(s: System, tid: nat, op: W.Action, t: nat, n: nat)
    requires Invariant(s) && Enabled(s, Commit(tid, op)) && Separate(s, Commit(tid, op))
    requires t in s.tasks && n in s.tasks[t].tags
    ensures n < |s.log| && Current(s.log[n], W.TableAfter(s.table, op))
  {
    TaskTag(s, t, n);
    var ev := s.log[n];
    assert InFlight(s, EventId(ev));
    PruneLaws.IdInIds(W.EventsOf(s.table, op), EventId(ev));
    CommitKeeps(s.table, op, EventId(ev), Apply(map[], ev));
  }

  /** Event n of task t after a commit by tid: one of its own, or in flight before. */
  ghost predicate Origin(s: System, tid: nat, evs: seq<Event>, t: nat, n: nat, ev: Event) {
    if t == tid then |s.log| <= n < |s.log| + |evs| && ev == evs[n - |s.log|]
    else Flying(s, t, n) && ev == s.log[n]
  }

  lemma OldFlight(s: System, tid: nat, op: W.Action, t: nat, n: nat)
    requires TagsValid(s) && Enabled(s, Commit(tid, op)) && t != tid
    requires Flying(Do(s, Commit(tid, op)), t, n)
    ensures Flying(s, t, n) && Do(s, Commit(tid, op)).log[n] == s.log[n]
  {
    assert Do(s, Commit(tid, op)).tasks[t] == s.tasks[t];
    TaskTag(s, t, n);
  }

  lemma OwnFlight(s: System, tid: nat, op: W.Action, n: nat)
    requires Enabled(s, Commit(tid, op)) && Flying(Do(s, Commit(tid, op)), tid, n)
    ensures |s.log| <= n < |s.log| + |W.EventsOf(s.table, op)|
    ensures Do(s, Commit(tid, op)).log[n] == W.EventsOf(s.table, op)[n - |s.log|]
  {
    var s', evs := Do(s, Commit(tid, op)), W.EventsOf(s.table, op);
    CommitShape(s, tid, op, evs, s');
    TagIndex(s.log, evs, n);
  }

  /** What a commit with these events does to the log and the tasks. */
  lemma CommitShape(s: System, tid: nat, op: W.Action, evs: seq<Event>, s': System)
    requires Enabled(s, Commit(tid, op)) && evs == W.EventsOf(s.table, op) && s' == Do(s, Commit(tid, op))
    ensures s'.log == s.log + evs && s'.watchers == s.watchers && s'.table == W.TableAfter(s.table, op)
    ensures s'.tasks == if evs == [] then s.tasks else s.tasks[tid := Task(Numbered(|s.log|, |evs|), None)]
  {
  }

  lemma TagIndex(log: seq<Event>, evs: seq<Event>, n: nat)
    requires n in Numbered(|log|, |evs|)
    ensures |log| <= n < |log| + |evs| && (log + evs)[n] == evs[n - |log|]
  {
    NumberedMembers(|log|, |evs|);
  }

  lemma FlightOrigin(s: System, tid: nat, op: W.Action, t: nat, n: nat)
    requires TagsValid(s) && Enabled(s, Commit(tid, op)) && Flying(Do(s, Commit(tid, op)), t, n)
    ensures Origin(s, tid, W.EventsOf(s.table, op), t, n, Do(s, Commit(tid, op)).log[n])
  {
    if t == tid {
      OwnFlight(s, tid, op, n);
    } else {
      OldFlight(s, tid, op, t, n);
    }
  }

  lemma OldAndNewDiffer(s: System, evs: seq<Event>, t: nat, n: nat, j: nat)
    requires forall e :: e in evs ==> !InFlight(s, EventId(e))
    requires Flying(s, t, n) && j < |evs|
    ensures EventId(s.log[n]) != EventId(evs[j])
  {
    assert InFlight(s, EventId(s.log[n]));
    assert evs[j] in evs;
  }

  lemma FlightsAfterCommit(s: System, tid: nat, op: W.Action)
    requires Invariant(s) && Enabled(s, Commit(tid, op)) && Separate(s, Commit(tid, op))
    ensures FlightsCurrent(Do(s, Commit(tid, op)))
  {
    var s' := Do(s, Commit(tid, op));
    forall t, n: nat | t in s'.tasks && n in s'.tasks[t].tags && n < |s'.log|
      ensures Current(s'.log[n], s'.table)
    {
      FlightOrigin(s, tid, op, t, n);
      if t == tid {
        OwnFlightCurrent(s.table, op, n - |s.log|);
      } else {
        FlightStaysCurrent(s, tid, op, t, n);
      }
    }
  }

  lemma OwnFlightCurrent(t: Table, op: W.Action, j: nat)
    requires ValidTable(t) && V.Clean(t, op)
    requires op.Prune? ==> IsPruneBatch(t, op.now, op.evs)
    requires j < |W.EventsOf(t, op)|
    ensures Current(W.EventsOf(t, op)[j], W.TableAfter(t, op))
  {
    CommitAnnounces(t, op);
    assert W.EventsOf(t, op)[j] in W.EventsOf(t, op);
  }

  /** Events that name each affiliate once, none of them in flight, keep the flights distinct. */
  lemma FlightsDiffer(s: System, tid: nat, evs: seq<Event>, t: nat, n: nat, ev: Event, t': nat, n': nat, ev': Event)
    requires FlightsDistinct(s) && NoDuplicates(Ids(evs))
    requires forall e :: e in evs ==> !InFlight(s, EventId(e))
    requires Origin(s, tid, evs, t, n, ev) && Origin(s, tid, evs, t', n', ev')
    ensures EventId(ev) == EventId(ev') ==> n == n'
  {
    if t == tid && t' == tid {
      if EventId(ev) == EventId(ev') {
        SamePosition(Ids(evs), n - |s.log|, n' - |s.log|);
      }
    } else if t == tid {
      OldAndNewDiffer(s, evs, t', n', n - |s.log|);
    } else if t' == tid {
      OldAndNewDiffer(s, evs, t, n, n' - |s.log|);
    }
  }

  lemma SamePosition(ids: seq<Id>, j: nat, k: nat)
    requires NoDuplicates(ids) && j < |ids| && k < |ids| && ids[j] == ids[k]
    ensures j == k
  {
    if j < k {
      NoDuplicatesDiffer(ids, j, k);
    } else if k < j {
      NoDuplicatesDiffer(ids, k, j);
    }
  }

  lemma DistinctAfterCommit(s: System, tid: nat, op: W.Action)
    requires Invariant(s) && Enabled(s, Commit(tid, op)) && Separate(s, Commit(tid, op))
    ensures FlightsDistinct(Do(s, Commit(tid, op)))
  {
    var s', evs := Do(s, Commit(tid, op)), W.EventsOf(s.table, op);
    CommitAnnounces(s.table, op);
    forall t, n: nat, t', n': nat | Flying(s', t, n) && Flying(s', t', n') && EventId(s'.log[n]) == EventId(s'.log[n'])
      ensures n == n'
    {
      FlightOrigin(s, tid, op, t, n);
      FlightOrigin(s, tid, op, t', n');
      FlightsDiffer(s, tid, evs, t, n, s'.log[n], t', n', s'.log[n']);
    }
  }

  lemma AnnouncedIsPending(s: System, tid: nat, op: W.Action, i: nat, id: Id)
    requires TagsValid(s) && Enabled(s, Commit(tid, op))
    requires id in Ids(W.EventsOf(s.table, op))
    ensures PendingAbout(Do(s, Commit(tid, op)), i, id)
  {
    var s', evs := Do(s, Commit(tid, op)), W.EventsOf(s.table, op);
    CommitShape(s, tid, op, evs, s');
    var n := FindAnnounced(s.log, evs, id);
    PendingAfterCommit(s, tid, op, n, i);
    AboutAt(s', n, i, id);
  }

  lemma FindAnnounced(log: seq<Event>, evs: seq<Event>, id: Id) returns (n: nat)
    requires id in Ids(evs)
    ensures |log| <= n < |log| + |evs| && EventId((log + evs)[n]) == id
  {
    var j :| 0 <= j < |evs| && Ids(evs)[j] == id;
    n := |log| + j;
  }

  lemma AboutAt(s: System, n: nat, i: nat, id: Id)
    requires Pending(s, n, i) && n < |s.log| && EventId(s.log[n]) == id
    ensures PendingAbout(s, i, id)
  {
  }

  lemma PendingRemains(s: System, tid: nat, op: W.Action, i: nat, id: Id)
    requires TagsValid(s) && Enabled(s, Commit(tid, op)) && PendingAbout(s, i, id)
    ensures PendingAbout(Do(s, Commit(tid, op)), i, id)
  {
    var n: nat :| Pending(s, n, i) && n < |s.log| && EventId(s.log[n]) == id;
    PendingAfterCommit(s, tid, op, n, i);
    assert Do(s, Commit(tid, op)).log[n] == s.log[n];
  }

  lemma ConvergingAfterCommit(s: System, tid: nat, op: W.Action, i: nat)
    requires Invariant(s) && Enabled(s, Commit(tid, op)) && Separate(s, Commit(tid, op))
    requires i < |s.watchers| && s.watchers[i].open
    requires NothingMissed(Do(s, Commit(tid, op)), i)
    ensures Converging(Do(s, Commit(tid, op)), i)
  {
    var s', evs := Do(s, Commit(tid, op)), W.EventsOf(s.table, op);
    assert NothingMissed(s, i) && Converging(s, i);
    EventsAtGrows(s.log, evs, s.watchers[i].got);
    forall id
      ensures AgreesAt(Copy(s', i), s'.table, id) || PendingAbout(s', i, id)
    {
      if PendingAbout(s, i, id) {
        PendingRemains(s, tid, op, i, id);
      } else if id in Ids(evs) {
        AnnouncedIsPending(s, tid, op, i, id);
      } else {
        CommitKeeps(s.table, op, id, Copy(s, i));
      }
    }
  }

  lemma ConvergingAfterDeliver(s: System, tid: nat, k: nat, i: nat)
    requires Invariant(s) && Enabled(s, Deliver(tid, k))
    requires i < |s.watchers| && NothingMissed(Do(s, Deliver(tid, k)), i)
    ensures Converging(Do(s, Deliver(tid, k)), i)
  {
    var s' := Do(s, Deliver(tid, k));
    var tag := s.tasks[tid].tags[0];
    TaskTag(s, tid, tag);
    var ev := s.log[tag];
    assert NothingMissed(s, i) && Converging(s, i);
    if s'.watchers[i].open {
      if i == k {
        CopyAfterOffer(s.log, s.watchers[i].base, s.watchers[i].got, tag);
        assert Copy(s', i) == Apply(Copy(s, i), ev);
      }
      forall id
        ensures AgreesAt(Copy(s', i), s'.table, id) || PendingAbout(s', i, id)
      {
        if i == k && id == EventId(ev) {
          ApplyCurrent(Copy(s, i), ev, s.table);
        } else {
          if i == k {
            ApplyElsewhere(Copy(s, i), ev, s.table, id);
          }
          if PendingAbout(s, i, id) {
            var n: nat :| Pending(s, n, i) && n < |s.log| && EventId(s.log[n]) == id;
            PendingAfterDeliver(s, tid, k, n, i);
          }
        }
      }
    }
  }

  lemma StillPending(s: System, a: Step, n: nat, i: nat)
    requires TagsValid(s) && Enabled(s, a) && !a.Commit? && !a.Deliver?
    requires i < |s.watchers| && s.watchers[i].open
    ensures Pending(s, n, i) ==> Pending(Do(s, a), n, i)
  {
    if a.Capture? {
      PendingAfterCapture(s, a.tid, n, i);
    } else if a.Finish? {
      PendingAfterFinish(s, a.tid, n, i);
    } else {
      SameTasks(s, Do(s, a), n, i);
    }
  }

  lemma SameTasks(s: System, s': System, n: nat, i: nat)
    requires s.tasks == s'.tasks
    ensures Pending(s, n, i) ==> Pending(s', n, i)
  {
  }

  lemma ConvergingOtherwise(s: System, a: Step, i: nat)
    requires Invariant(s) && Enabled(s, a) && !a.Commit? && !a.Deliver?
    requires i < |s.watchers| && NothingMissed(Do(s, a), i)
    ensures Converging(Do(s, a), i)
  {
    var s' := Do(s, a);
    assert NothingMissed(s, i) && Converging(s, i);
    if s'.watchers[i].open {
      UnmovedCopy(s, a, i);
      forall id
        ensures AgreesAt(Copy(s', i), s'.table, id) || PendingAbout(s', i, id)
      {
        if PendingAbout(s, i, id) {
          var n: nat :| Pending(s, n, i) && n < |s.log| && EventId(s.log[n]) == id;
          StillPending(s, a, n, i);
        }
      }
    }
  }

  lemma UnmovedWatcher(s: System, a: Step, i: nat)
    requires Enabled(s, a) && !a.Commit? && !a.Deliver? && i < |s.watchers|
    ensures var s' := Do(s, a);
            && s'.table == s.table && s'.log == s.log && i < |s'.watchers|
            && s'.watchers[i].base == s.watchers[i].base && s'.watchers[i].got == s.watchers[i].got
            && (s'.watchers[i].open ==> s.watchers[i].open)
  {
  }

  lemma UnmovedCopy(s: System, a: Step, i: nat)
    requires Enabled(s, a) && !a.Commit? && !a.Deliver?
    requires i < |s.watchers| && NothingMissed(s, i) && NothingMissed(Do(s, a), i)
    ensures Do(s, a).watchers[i].open ==> s.watchers[i].open
    ensures Copy(Do(s, a), i) == Copy(s, i)
    ensures Do(s, a).table == s.table && Do(s, a).log == s.log
  {
    UnmovedWatcher(s, a, i);
  }

  lemma NewWatcherConverges(s: System)
    requires Invariant(s) && NothingMissed(Do(s, Subscribe), |s.watchers|)
    ensures Converging(Do(s, Subscribe), |s.watchers|)
  {
    V.SnapshotAgrees(s.table);
    var s' := Do(s, Subscribe);
    assert Copy(s', |s.watchers|) == MirrorOf(s.table);
  }

  lemma FlightsStep(s: System, a: Step)
    requires Invariant(s) && Enabled(s, a) && Separate(s, a)
    ensures FlightsCurrent(Do(s, a)) && FlightsDistinct(Do(s, a))
  {
    match a {
      case Commit(tid, op) =>
        FlightsAfterCommit(s, tid, op);
        DistinctAfterCommit(s, tid, op);
      case Finish(tid) =>
        TailDistinct(s.tasks[tid].tags);
        FlightsShrink(s, Do(s, a));
      case _ =>
        FlightsShrink(s, Do(s, a));
    }
  }

  lemma FlightsShrink(s: System, s': System)
    requires FlightsCurrent(s) && FlightsDistinct(s)
    requires s'.log == s.log && s'.table == s.table
    requires forall tid :: tid in s'.tasks ==>
               tid in s.tasks && forall n :: n in s'.tasks[tid].tags ==> n in s.tasks[tid].tags
    ensures FlightsCurrent(s') && FlightsDistinct(s')
  {
    assert forall t, n: nat :: Flying(s', t, n) ==> Flying(s, t, n);
  }

  lemma InvariantStep(s: System, a: Step)
    requires Invariant(s) && Enabled(s, a) && Separate(s, a)
    ensures Invariant(Do(s, a))
  {
    CompleteStep(s, a);
    FlightsStep(s, a);
    var s' := Do(s, a);
    if a.Commit? {
      V.TableAfterValid(s.table, a.op);
    }
    forall i | 0 <= i < |s'.watchers|
      ensures NothingMissed(s', i) && Converging(s', i)
    {
      if i == |s.watchers| {
        NewWatcherConverges(s);
      } else {
        match a
        case Commit(tid, op) =>
          if s.watchers[i].open {
            ConvergingAfterCommit(s, tid, op, i);
          }
        case Deliver(tid, k) => ConvergingAfterDeliver(s, tid, k, i);
        case _ => ConvergingOtherwise(s, a, i);
      }
    }
  }

  lemma {:induction false} EveryScheduleConverging(t: Table, steps: seq<Step>)
    requires ValidTable(t) && RunFrom(Initial(t), steps).Some? && SeparateRun(Initial(t), steps)
    ensures Invariant(RunFrom(Initial(t), steps).value)
    decreases |steps|
  {
    if steps != [] {
      EveryScheduleConverging(t, steps[..|steps| - 1]);
      InvariantStep(RunFrom(Initial(t), steps[..|steps| - 1]).value, steps[|steps| - 1]);
    }
  }

  /**
   * However the steps interleave, if commits about one affiliate never overlap before they are delivered
   * and no update fails visibly, an open watcher with nothing on its way has the server's table.
   */
  lemma WatcherConverges(t: Table, steps: seq<Step>, s: System, i: nat)
    requires ValidTable(t) && RunFrom(Initial(t), steps) == Some(s) && SeparateRun(Initial(t), steps)
    requires i < |s.watchers| && s.watchers[i].open && Settled(s, i)
    ensures NothingMissed(s, i)
    ensures Agrees(Copy(s, i), s.table)
  {
    EveryScheduleConverging(t, steps);
    SettledAgrees(s, i);
  }

  lemma SettledAgrees(s: System, i: nat)
    requires Invariant(s) && i < |s.watchers| && s.watchers[i].open && Settled(s, i)
    ensures NothingMissed(s, i) && Agrees(Copy(s, i), s.table)
  {
    assert NothingMissed(s, i) && Converging(s, i);
    forall id
      ensures AgreesAt(Copy(s, i), s.table, id)
    {
      assert !PendingAbout(s, i, id);
    }
  }

  /** With no operation still notifying, every open watcher has the server's table. */
  lemma QuiescentAgreement(t: Table, steps: seq<Step>, s: System)
    requires ValidTable(t) && RunFrom(Initial(t), steps) == Some(s) && SeparateRun(Initial(t), steps)
    requires s.tasks == map[]
    ensures forall i :: 0 <= i < |s.watchers| && s.watchers[i].open ==>
              NothingMissed(s, i) && Agrees(Copy(s, i), s.table)
  {
    forall i | 0 <= i < |s.watchers| && s.watchers[i].open
      ensures NothingMissed(s, i) && Agrees(Copy(s, i), s.table)
    {
      assert Settled(s, i);
      WatcherConverges(t, steps, s, i);
    }
  }
}
