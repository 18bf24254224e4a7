/**
 * In every schedule, overlapping commits included: a settled watcher has the table's value of an affiliate
 * exactly when the last event it was offered about it shows the same as the last one committed.
 */
module LastWord {
  import opened Basics
  import opened Affiliates
  import opened Registry
  import opened Interleaving
  import opened Convergence
  import opened PerAffiliate
  import W = WatchRuns
  import V = WatchViews
  import PruneLaws

  /** The last event about an affiliate. */
  function LastAbout(evs: seq<Event>, id: Id): Option<Event>
    decreases |evs|
  {
    if evs == [] then None
    else if EventId(evs[|evs| - 1]) == id then Some(evs[|evs| - 1])
    else LastAbout(evs[..|evs| - 1], id)
  }

  /** An announced affiliate without data and endpoints. */
  predicate Blank(ev: Event) {
    ev.Upsert? && ev.info.data == [] && ev.info.endpoints == []
  }

  /**
   * A copy made by the one event shows what the other left in the table, where the affiliate now is stored or
   * not: they are the same event, or one is a tombstone and the other shows an affiliate with nothing in it,
   * which is not told from an absent one unless the copy has it and the table does not.
   */
  predicate ShowsSame(offered: Event, committed: Event, stored: bool) {
    || offered == committed
    || (offered.Delete? && Blank(committed))
    || (Blank(offered) && committed.Delete? && stored)
  }

  /** No commit of the schedule is a visible failure of this affiliate. */
  ghost predicate NeverFails(s: System, steps: seq<Step>, id: Id)
    requires RunFrom(s, steps).Some?
    decreases |steps|
  {
    steps == [] || (
      var front, a := steps[..|steps| - 1], steps[|steps| - 1];
      NeverFails(s, front, id) && (a.Commit? ==> !VisiblyFails(RunFrom(s, front).value.table, a.op, id))
    )
  }

  // ----- the last event decides a copy -----

  lemma {:induction false} LastAboutIn(evs: seq<Event>, id: Id)
    ensures LastAbout(evs, id).Some? ==> LastAbout(evs, id).value in evs && EventId(LastAbout(evs, id).value) == id
    ensures LastAbout(evs, id).None? ==> forall ev :: ev in evs ==> EventId(ev) != id
    decreases |evs|
  {
    if evs != [] {
      LastAboutIn(evs[..|evs| - 1], id);
      assert evs == evs[..|evs| - 1] + [evs[|evs| - 1]];
    }
  }

  lemma {:induction false} LastAboutConcat(evs: seq<Event>, more: seq<Event>, id: Id)
    ensures LastAbout(evs + more, id) == if LastAbout(more, id).Some? then LastAbout(more, id) else LastAbout(evs, id)
    decreases |more|
  {
    if more == [] {
      assert evs + more == evs;
    } else {
      var front := more[..|more| - 1];
      assert (evs + more)[..|evs + more| - 1] == evs + front;
      LastAboutConcat(evs, front, id);
    }
  }

  lemma {:induction false} ReplayLast(m: Mirror, evs: seq<Event>, id: Id)
    ensures PruneLaws.At(Replay(m, evs), id) ==
              if LastAbout(evs, id).Some? then PruneLaws.Effect(LastAbout(evs, id).value) else PruneLaws.At(m, id)
    decreases |evs|
  {
    if evs != [] {
      ReplayLast(m, evs[..|evs| - 1], id);
    }
  }

  /** Agreement at an affiliate depends on the copy's entry for it only. */
  lemma AgreesSame(m: Mirror, m': Mirror, t: Table, id: Id)
    requires PruneLaws.At(m, id) == PruneLaws.At(m', id)
    ensures AgreesAt(m, t, id) <==> AgreesAt(m', t, id)
  {
  }

  lemma ApplyAt(ev: Event)
    ensures PruneLaws.At(Apply(map[], ev), EventId(ev)) == PruneLaws.Effect(ev)
  {
  }

  // ----- what every schedule keeps -----

  /** The last committed event about the affiliate is still what the table shows. */
  ghost predicate LogCurrent(s: System, id: Id) {
    LastAbout(s.log, id).Some? ==> Current(LastAbout(s.log, id).value, s.table)
  }

  /** A watcher since whose registration nothing was committed about the affiliate was given its value. */
  ghost predicate BaseCurrent(s: System, i: nat, id: Id)
    requires i < |s.watchers| && s.watchers[i].start <= |s.log|
  {
    LastAbout(s.log[s.watchers[i].start..], id).None? ==> AgreesAt(s.watchers[i].base, s.table, id)
  }

  ghost predicate Kept(s: System, id: Id) {
    && Complete(s) && ValidTable(s.table) && LogCurrent(s, id)
    && forall i :: 0 <= i < |s.watchers| ==> s.watchers[i].start <= |s.log| && BaseCurrent(s, i, id)
  }

  /** A commit that announces the affiliate leaves its event current; any other keeps what agreed. */
  lemma CommitDecides(t: Table, op: W.Action, id: Id)
    requires ValidTable(t) && (op.Prune? ==> IsPruneBatch(t, op.now, op.evs)) && !VisiblyFails(t, op, id)
    ensures var last := LastAbout(W.EventsOf(t, op), id);
            && (last.Some? ==> Current(last.value, W.TableAfter(t, op)))
            && (last.None? ==> forall m :: AgreesAt(m, t, id) ==> AgreesAt(m, W.TableAfter(t, op), id))
  {
    var evs := W.EventsOf(t, op);
    LastAboutIn(evs, id);
    CommitAnnounces(t, op);
    if LastAbout(evs, id).None? {
      PruneLaws.IdInIds(evs, id);
      forall m | AgreesAt(m, t, id)
        ensures AgreesAt(m, W.TableAfter(t, op), id)
      {
        CommitKeeps(t, op, id, m);
      }
    }
  }

  lemma LogKept(t: Table, t': Table, log: seq<Event>, evs: seq<Event>, id: Id)
    requires LastAbout(log, id).Some? ==> Current(LastAbout(log, id).value, t)
    requires LastAbout(evs, id).Some? ==> Current(LastAbout(evs, id).value, t')
    requires LastAbout(evs, id).None? ==> forall m :: AgreesAt(m, t, id) ==> AgreesAt(m, t', id)
    ensures LastAbout(log + evs, id).Some? ==> Current(LastAbout(log + evs, id).value, t')
  {
    LastAboutConcat(log, evs, id);
    LastAboutIn(log, id);
  }

  lemma BaseKept(t: Table, t': Table, base: Mirror, log: seq<Event>, evs: seq<Event>, from: nat, id: Id)
    requires from <= |log|
    requires LastAbout(log[from..], id).None? ==> AgreesAt(base, t, id)
    requires LastAbout(evs, id).None? ==> forall m :: AgreesAt(m, t, id) ==> AgreesAt(m, t', id)
    ensures LastAbout((log + evs)[from..], id).None? ==> AgreesAt(base, t', id)
  {
    assert (log + evs)[from..] == log[from..] + evs;
    LastAboutConcat(log[from..], evs, id);
  }

  lemma KeptCommit(s: System, tid: nat, op: W.Action, id: Id)
    requires Kept(s, id) && Enabled(s, Commit(tid, op)) && !VisiblyFails(s.table, op, id)
    ensures Kept(Do(s, Commit(tid, op)), id)
  {
    var s', evs := Do(s, Commit(tid, op)), W.EventsOf(s.table, op);
    CompleteStep(s, Commit(tid, op));
    V.TableAfterValid(s.table, op);
    CommitShape(s, tid, op, evs, s');
    CommitDecides(s.table, op, id);
    LogKept(s.table, s'.table, s.log, evs, id);
    forall i | 0 <= i < |s'.watchers|
      ensures s'.watchers[i].start <= |s'.log| && BaseCurrent(s', i, id)
    {
      assert BaseCurrent(s, i, id);
      BaseKept(s.table, s'.table, s.watchers[i].base, s.log, evs, s.watchers[i].start, id);
    }
  }

  /** Other steps leave table, log, bases and starts alone; a new watcher starts from the table. */
  lemma KeptOtherwise(s: System, a: Step, id: Id)
    requires Kept(s, id) && Enabled(s, a) && !a.Commit?
    ensures Kept(Do(s, a), id)
  {
    var s' := Do(s, a);
    CompleteStep(s, a);
    assert s'.table == s.table && s'.log == s.log;
    V.SnapshotAgrees(s.table);
    forall i | 0 <= i < |s'.watchers|
      ensures s'.watchers[i].start <= |s'.log| && BaseCurrent(s', i, id)
    {
      if i < |s.watchers| {
        assert BaseCurrent(s, i, id);
      }
    }
  }

  lemma {:induction false} EveryScheduleKept(t: Table, steps: seq<Step>, id: Id)
    requires ValidTable(t) && RunFrom(Initial(t), steps).Some? && NeverFails(Initial(t), steps, id)
    ensures Kept(RunFrom(Initial(t), steps).value, id)
    decreases |steps|
  {
    if steps != [] {
      var front, a := steps[..|steps| - 1], steps[|steps| - 1];
      EveryScheduleKept(t, front, id);
      if a.Commit? {
        KeptCommit(RunFrom(Initial(t), front).value, a.tid, a.op, id);
      } else {
        KeptOtherwise(RunFrom(Initial(t), front).value, a, id);
      }
    }
  }

  // ----- the last word -----

  /** What watcher i was offered, in the order it was offered. */
  ghost function Offered(s: System, i: nat): seq<Event>
    requires i < |s.watchers| && Within(s.watchers[i].got, |s.log|)
  {
    EventsAt(s.log, s.watchers[i].got)
  }

  lemma {:induction false} EventsAtMembers(log: seq<Event>, tags: seq<nat>)
    requires Within(tags, |log|)
    ensures forall n :: n in tags ==> n < |log| && log[n] in EventsAt(log, tags)
    ensures forall ev :: ev in EventsAt(log, tags) ==> ev in log
    decreases |tags|
  {
    if tags != [] {
      EventsAtMembers(log, tags[..|tags| - 1]);
      assert tags == tags[..|tags| - 1] + [tags[|tags| - 1]];
    }
  }

  /** A settled watcher that was offered nothing about the affiliate was given its value. */
  lemma NothingOffered(s: System, i: nat, id: Id)
    requires Kept(s, id) && i < |s.watchers| && s.watchers[i].open && Settled(s, i) && NothingMissed(s, i)
    requires LastAbout(Offered(s, i), id).None?
    ensures AgreesAt(s.watchers[i].base, s.table, id)
  {
    var w := s.watchers[i];
    LastAboutIn(Offered(s, i), id);
    EventsAtMembers(s.log, w.got);
    forall ev | ev in s.log[w.start..]
      ensures EventId(ev) != id
    {
      var j :| 0 <= j < |s.log| - w.start && s.log[w.start..][j] == ev;
      assert w.start + j in w.got;
    }
    LastAboutIn(s.log[w.start..], id);
    assert BaseCurrent(s, i, id);
  }

  lemma OfferedCommitted(s: System, i: nat, id: Id)
    requires i < |s.watchers| && Within(s.watchers[i].got, |s.log|) && LastAbout(Offered(s, i), id).Some?
    ensures LastAbout(s.log, id).Some?
  {
    LastAboutIn(Offered(s, i), id);
    EventsAtMembers(s.log, s.watchers[i].got);
    LastAboutIn(s.log, id);
  }

  /** Against a table that shows what was committed, a copy of what was offered agrees if both show the same. */
  lemma SameShown(offered: Event, committed: Event, t: Table, id: Id)
    requires EventId(offered) == EventId(committed) == id && Current(committed, t) && Keyed(t)
    ensures Current(offered, t) <==> ShowsSame(offered, committed, id in t)
  {
    assert id in t ==> |Names(t[id].endpoints)| == |t[id].endpoints|;
    assert Names([]) == [];
  }

  /** What watcher i was last offered about the affiliate shows the same as what was last committed about it. */
  ghost predicate LastWordStands(s: System, i: nat, id: Id)
    requires i < |s.watchers| && Within(s.watchers[i].got, |s.log|)
  {
    var offered := LastAbout(Offered(s, i), id);
    offered.Some? ==> LastAbout(s.log, id).Some? && ShowsSame(offered.value, LastAbout(s.log, id).value, id in s.table)
  }

  lemma KeptDecides(s: System, i: nat, id: Id)
    requires Kept(s, id) && i < |s.watchers| && s.watchers[i].open && Settled(s, i) && NothingMissed(s, i)
    ensures AgreesAt(Copy(s, i), s.table, id) <==> LastWordStands(s, i, id)
  {
    var w, offered := s.watchers[i], LastAbout(Offered(s, i), id);
    ReplayLast(w.base, Offered(s, i), id);
    if offered.None? {
      NothingOffered(s, i, id);
      AgreesSame(Copy(s, i), w.base, s.table, id);
    } else {
      OfferedCommitted(s, i, id);
      LastAboutIn(Offered(s, i), id);
      LastAboutIn(s.log, id);
      ApplyAt(offered.value);
      AgreesSame(Copy(s, i), Apply(map[], offered.value), s.table, id);
      SameShown(offered.value, LastAbout(s.log, id).value, s.table, id);
    }
  }

  /**
   * In every schedule in which no update of this affiliate fails visibly, however commits overlap: an open
   * watcher with nothing pending has the table's value of it if and only if the last event it was offered
   * about it, if any, shows the same as the last one committed.
   */
  lemma LastWordDecides(t: Table, steps: seq<Step>, s: System, i: nat, id: Id)
    requires ValidTable(t) && RunFrom(Initial(t), steps) == Some(s) && NeverFails(Initial(t), steps, id)
    requires i < |s.watchers| && s.watchers[i].open && Settled(s, i)
    ensures NothingMissed(s, i)
    ensures AgreesAt(Copy(s, i), s.table, id) <==> LastWordStands(s, i, id)
  {
    EveryScheduleKept(t, steps, id);
    assert NothingMissed(s, i);
    KeptDecides(s, i, id);
  }

  /** So the whole copy is the server's table if and only if the last word stands for every affiliate. */
  lemma SettledAgreesIff(t: Table, steps: seq<Step>, s: System, i: nat)
    requires ValidTable(t) && RunFrom(Initial(t), steps) == Some(s) && forall id :: NeverFails(Initial(t), steps, id)
    requires i < |s.watchers| && s.watchers[i].open && Settled(s, i)
    ensures NothingMissed(s, i)
    ensures Agrees(Copy(s, i), s.table) <==> forall id :: LastWordStands(s, i, id)
  {
    EveryScheduleComplete(t, steps);
    assert NothingMissed(s, i);
    forall id
      ensures AgreesAt(Copy(s, i), s.table, id) <==> LastWordStands(s, i, id)
    {
      LastWordDecides(t, steps, s, i, id);
    }
  }
}
