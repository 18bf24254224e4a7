/**
 * The watch protocol with its steps interleaved: operations commit under the affiliates lock and fan
 * out after releasing it, so commits, copies of the subscriber set, deliveries, subscriptions, reads
 * and closes of different goroutines mix freely.
 */
module Interleaving {
  import opened Basics
  import opened Registry
  import W = WatchRuns

  /** A committed operation that is still notifying: events by their number in the log, the head one under way. */
  datatype Task = Task(tags: seq<nat>, targets: Option<set<nat>>)

  /** A subscription: its snapshot, the log length when it registered, what was put in its channel, what was read. */
  datatype Watcher = Watcher(base: Mirror, start: nat, got: seq<nat>, read: nat, open: bool)

  datatype System = System(table: Table, log: seq<Event>, tasks: map<nat, Task>, watchers: seq<Watcher>)

  datatype Step =
    | Commit(tid: nat, op: W.Action)
    | Capture(tid: nat)
    | Deliver(tid: nat, i: nat)
    | Finish(tid: nat)
    | Subscribe
    | Read(i: nat)
    | Close(i: nat)

  /** A cluster without watchers or operations: a new one, or one restored from a snapshot. */
  function Initial(t: Table): System {
    System(t, [], map[], [])
  }

  ghost predicate Enabled(s: System, a: Step) {
    match a
    case Commit(tid, op) =>
      && tid !in s.tasks
      && (op.Update? || op.Remove? || op.Prune?)
      && (op.Prune? ==> IsPruneBatch(s.table, op.now, op.evs))
    case Capture(tid) => tid in s.tasks && s.tasks[tid].targets.None? && s.tasks[tid].tags != []
    case Deliver(tid, i) =>
      && tid in s.tasks && s.tasks[tid].targets.Some? && s.tasks[tid].tags != []
      && i in s.tasks[tid].targets.value && i < |s.watchers|
    case Finish(tid) => tid in s.tasks && s.tasks[tid].targets == Some({}) && s.tasks[tid].tags != []
    case Subscribe => true
    case Read(i) => i < |s.watchers| && s.watchers[i].read < |s.watchers[i].got|
    case Close(i) => i < |s.watchers|
  }

  function Numbered(from: nat, n: nat): (tags: seq<nat>)
    ensures |tags| == n && forall j :: 0 <= j < n ==> tags[j] == from + j
  {
    seq(n, j requires 0 <= j => from + j)
  }

  function OpenWatchers(s: System): set<nat> {
    set i | 0 <= i < |s.watchers| && s.watchers[i].open
  }

  /** Subscription.notify: skip when closed, enqueue when there is room, otherwise evict. */
  function Offer(w: Watcher, tag: nat): Watcher {
    if !w.open then w
    else if |w.got| < w.read + SUBSCRIPTION_BUFFER then w.(got := w.got + [tag])
    else w.(open := false)
  }

  ghost function Do(s: System, a: Step): System
    requires Enabled(s, a)
  {
    match a
    case Commit(tid, op) =>
      var evs := W.EventsOf(s.table, op);
      s.(table := W.TableAfter(s.table, op),
         log := s.log + evs,
         tasks := if evs == [] then s.tasks else s.tasks[tid := Task(Numbered(|s.log|, |evs|), None)])
    case Capture(tid) => s.(tasks := s.tasks[tid := s.tasks[tid].(targets := Some(OpenWatchers(s)))])
    case Deliver(tid, i) =>
      var task := s.tasks[tid];
      s.(tasks := s.tasks[tid := task.(targets := Some(task.targets.value - {i}))],
         watchers := s.watchers[i := Offer(s.watchers[i], task.tags[0])])
    case Finish(tid) =>
      var rest := s.tasks[tid].tags[1..];
      s.(tasks := if rest == [] then s.tasks - {tid} else s.tasks[tid := Task(rest, None)])
    case Subscribe => s.(watchers := s.watchers + [Watcher(MirrorOf(s.table), |s.log|, [], 0, true)])
    case Read(i) => s.(watchers := s.watchers[i := s.watchers[i].(read := s.watchers[i].read + 1)])
    case Close(i) => s.(watchers := s.watchers[i := s.watchers[i].(open := false)])
  }

  /** The state after a schedule; None when some step of it was not possible. */
  ghost function RunFrom(s: System, steps: seq<Step>): Option<System>
    decreases |steps|
  {
    if steps == [] then Some(s)
    else
      var p := RunFrom(s, steps[..|steps| - 1]);
      if p.Some? && Enabled(p.value, steps[|steps| - 1]) then Some(Do(p.value, steps[|steps| - 1])) else None
  }

  // ----- what is on its way to a watcher -----

  predicate Carries(task: Task, n: nat, i: nat) {
    n in task.tags && (task.tags[0] == n && task.targets.Some? ==> i in task.targets.value)
  }

  /** Event n of the log has not been offered to watcher i yet. */
  ghost predicate Pending(s: System, n: nat, i: nat) {
    exists tid :: tid in s.tasks && Carries(s.tasks[tid], n, i)
  }

  /** Every tag in flight is a log entry and is in flight once. */
  ghost predicate TagsValid(s: System) {
    && (forall tid :: tid in s.tasks ==>
          s.tasks[tid].tags != [] && NoDuplicates(s.tasks[tid].tags) &&
          (forall n :: n in s.tasks[tid].tags ==> n < |s.log|) &&
          (s.tasks[tid].targets.Some? ==> forall i :: i in s.tasks[tid].targets.value ==> i < |s.watchers|))
    && forall tid, tid', n ::
         tid in s.tasks && tid' in s.tasks && n in s.tasks[tid].tags && n in s.tasks[tid'].tags ==> tid == tid'
  }

  predicate Within(tags: seq<nat>, bound: nat) {
    forall j :: 0 <= j < |tags| ==> tags[j] < bound
  }

  /** Watcher i has, or is going to be offered, every event committed since it registered, and none twice. */
  ghost predicate NothingMissed(s: System, i: nat)
    requires i < |s.watchers|
  {
    var w := s.watchers[i];
    && w.start <= |s.log| && w.read <= |w.got|
    && Within(w.got, |s.log|)
    && NoDuplicates(w.got)
    && (w.open ==> forall n :: w.start <= n < |s.log| ==> n in w.got || Pending(s, n, i))
    && (forall n :: n in w.got ==> !Pending(s, n, i))
  }

  ghost predicate Complete(s: System) {
    TagsValid(s) && forall i :: 0 <= i < |s.watchers| ==> NothingMissed(s, i)
  }

  // ----- how each step moves what is pending -----

  lemma {:induction false} NumberedDistinct(from: nat, n: nat)
    ensures NoDuplicates(Numbered(from, n))
  {
    if n > 0 {
      NumberedDistinct(from, n - 1);
      assert Numbered(from, n)[..n - 1] == Numbered(from, n - 1);
    }
  }

  lemma NumberedMembers(from: nat, n: nat)
    ensures forall k :: k in Numbered(from, n) <==> from <= k < from + n
  {
    forall k | from <= k < from + n
      ensures k in Numbered(from, n)
    {
      assert Numbered(from, n)[k - from] == k;
    }
  }

  lemma TailDistinct(tags: seq<nat>)
    requires NoDuplicates(tags) && tags != []
    ensures NoDuplicates(tags[1..])
    ensures tags[0] !in tags[1..]
    ensures forall n :: n in tags[1..] ==> n in tags
    ensures forall n :: n in tags && n != tags[0] ==> n in tags[1..]
  {
    if tags[0] in tags[1..] {
      var j :| 0 <= j < |tags| - 1 && tags[1..][j] == tags[0];
      NoDuplicatesDiffer(tags, 0, j + 1);
    }
    TailNoDuplicates(tags);
  }

  lemma {:induction false} TailNoDuplicates(tags: seq<nat>)
    requires NoDuplicates(tags) && tags != []
    ensures NoDuplicates(tags[1..])
    decreases |tags|
  {
    var last := |tags| - 1;
    if last > 0 {
      TailNoDuplicates(tags[..last]);
      assert tags[1..][..last - 1] == tags[..last][1..];
      assert tags[1..][last - 1] == tags[last];
      assert forall n :: n in tags[..last][1..] ==> n in tags[..last];
    }
  }

  lemma TagsAfterCommit(s: System, tid: nat, op: W.Action)
    requires Enabled(s, Commit(tid, op)) && TagsValid(s)
    ensures TagsValid(Do(s, Commit(tid, op)))
  {
    var n := |W.EventsOf(s.table, op)|;
    NumberedDistinct(|s.log|, n);
    NumberedMembers(|s.log|, n);
    TagsAdd(s, Do(s, Commit(tid, op)), tid, Numbered(|s.log|, n));
  }

  lemma TagsAdd(s: System, s': System, tid: nat, tags: seq<nat>)
    requires TagsValid(s) && NoDuplicates(tags)
    requires forall n :: n in tags ==> |s.log| <= n < |s'.log|
    requires |s.log| <= |s'.log| && s'.watchers == s.watchers
    requires s'.tasks == if tags == [] then s.tasks else s.tasks[tid := Task(tags, None)]
    ensures TagsValid(s')
  {
  }

  lemma TagsAfterFinish(s: System, tid: nat)
    requires Enabled(s, Finish(tid)) && TagsValid(s)
    ensures TagsValid(Do(s, Finish(tid)))
  {
    TailDistinct(s.tasks[tid].tags);
  }

  lemma TagsStep(s: System, a: Step)
    requires Enabled(s, a) && TagsValid(s)
    ensures TagsValid(Do(s, a))
  {
    match a {
      case Commit(tid, op) => TagsAfterCommit(s, tid, op);
      case Finish(tid) => TagsAfterFinish(s, tid);
      case _ =>
    }
  }

  lemma PendingAfterCommit(s: System, tid: nat, op: W.Action, n: nat, i: nat)
    requires Enabled(s, Commit(tid, op)) && TagsValid(s)
    ensures Pending(Do(s, Commit(tid, op)), n, i) <==>
              Pending(s, n, i) || |s.log| <= n < |s.log| + |W.EventsOf(s.table, op)|
  {
    var s', evs := Do(s, Commit(tid, op)), W.EventsOf(s.table, op);
    if evs == [] {
      assert s'.tasks == s.tasks;
    } else {
      PendingAfterAdd(s, s', tid, Numbered(|s.log|, |evs|), n, i);
      NumberedMembers(|s.log|, |evs|);
    }
  }

  lemma PendingAfterAdd(s: System, s': System, tid: nat, tags: seq<nat>, n: nat, i: nat)
    requires tid !in s.tasks && s'.tasks == s.tasks[tid := Task(tags, None)]
    ensures Pending(s', n, i) <==> Pending(s, n, i) || n in tags
  {
    if Pending(s, n, i) {
      var t :| t in s.tasks && Carries(s.tasks[t], n, i);
      assert t in s'.tasks && s'.tasks[t] == s.tasks[t];
    }
    if n in tags {
      assert Carries(s'.tasks[tid], n, i);
    }
  }

  lemma PendingAfterCapture(s: System, tid: nat, n: nat, i: nat)
    requires Enabled(s, Capture(tid)) && i < |s.watchers| && s.watchers[i].open
    ensures Pending(Do(s, Capture(tid)), n, i) <==> Pending(s, n, i)
  {
    var s' := Do(s, Capture(tid));
    assert forall t :: t in s.tasks ==> (Carries(s'.tasks[t], n, i) <==> Carries(s.tasks[t], n, i));
  }

  lemma PendingAfterDeliver(s: System, tid: nat, k: nat, n: nat, i: nat)
    requires Enabled(s, Deliver(tid, k)) && TagsValid(s)
    ensures Pending(Do(s, Deliver(tid, k)), n, i) <==>
              Pending(s, n, i) && !(i == k && n == s.tasks[tid].tags[0])
  {
    var s' := Do(s, Deliver(tid, k));
    assert forall t :: t in s.tasks ==>
      (Carries(s'.tasks[t], n, i) <==>
         Carries(s.tasks[t], n, i) && !(t == tid && i == k && n == s.tasks[tid].tags[0]));
  }

  lemma PendingAfterFinish(s: System, tid: nat, n: nat, i: nat)
    requires Enabled(s, Finish(tid)) && TagsValid(s)
    ensures Pending(Do(s, Finish(tid)), n, i) <==> Pending(s, n, i)
  {
    var s', tags := Do(s, Finish(tid)), s.tasks[tid].tags;
    TailDistinct(tags);
    assert Carries(s.tasks[tid], n, i) <==> n in tags[1..];
    if Pending(s, n, i) {
      var t :| t in s.tasks && Carries(s.tasks[t], n, i);
      if t == tid {
        assert tags[1..] != [];
        assert Carries(s'.tasks[t], n, i);
      } else {
        assert Carries(s'.tasks[t], n, i);
      }
    }
  }

  lemma DeliverIsPending(s: System, tid: nat, k: nat)
    requires Enabled(s, Deliver(tid, k))
    ensures Pending(s, s.tasks[tid].tags[0], k)
  {
    assert Carries(s.tasks[tid], s.tasks[tid].tags[0], k);
  }

  lemma CaptureOnlyDrops(s: System, tid: nat, n: nat, i: nat)
    requires Enabled(s, Capture(tid))
    ensures Pending(Do(s, Capture(tid)), n, i) ==> Pending(s, n, i)
  {
    var s' := Do(s, Capture(tid));
    if Pending(s', n, i) {
      var t :| t in s'.tasks && Carries(s'.tasks[t], n, i);
      assert Carries(s.tasks[t], n, i);
    }
  }

  lemma NothingMissedDeliver(s: System, tid: nat, k: nat, i: nat)
    requires Enabled(s, Deliver(tid, k)) && TagsValid(s) && i < |s.watchers| && NothingMissed(s, i)
    ensures NothingMissed(Do(s, Deliver(tid, k)), i)
  {
    var s', tag := Do(s, Deliver(tid, k)), s.tasks[tid].tags[0];
    var w, w' := s.watchers[i], s'.watchers[i];
    forall n { PendingAfterDeliver(s, tid, k, n, i); }
    DeliverIsPending(s, tid, k);
    if k == i && w'.got != w.got {
      NoDuplicatesAppend(w.got, tag);
      assert w'.got[|w.got|] == tag;
      assert forall n :: n in w.got ==> n in w'.got;
    }
  }

  lemma NothingMissedStep(s: System, a: Step, i: nat)
    requires Enabled(s, a) && TagsValid(s) && i < |s.watchers| && NothingMissed(s, i)
    ensures NothingMissed(Do(s, a), i)
  {
    match a {
      case Commit(tid, op) =>
        forall n { PendingAfterCommit(s, tid, op, n, i); }
      case Capture(tid) =>
        forall n { CaptureOnlyDrops(s, tid, n, i); }
        if s.watchers[i].open {
          forall n { PendingAfterCapture(s, tid, n, i); }
        }
      case Deliver(tid, k) =>
        NothingMissedDeliver(s, tid, k, i);
      case Finish(tid) =>
        forall n { PendingAfterFinish(s, tid, n, i); }
      case _ =>
    }
  }

  lemma CompleteStep(s: System, a: Step)
    requires Enabled(s, a) && Complete(s)
    ensures Complete(Do(s, a))
  {
    TagsStep(s, a);
    var s' := Do(s, a);
    forall i | 0 <= i < |s'.watchers|
      ensures NothingMissed(s', i)
    {
      if i < |s.watchers| {
        NothingMissedStep(s, a, i);
      }
    }
  }

  /**
   * No schedule makes an open watcher miss an event committed after it registered, or get one twice.
   * This needs nothing of the commits: overlapping ones may be delivered in any order, but are delivered.
   */
  lemma {:induction false} EveryScheduleComplete(t: Table, steps: seq<Step>)
    requires RunFrom(Initial(t), steps).Some?
    ensures Complete(RunFrom(Initial(t), steps).value)
    decreases |steps|
  {
    if steps != [] {
      EveryScheduleComplete(t, steps[..|steps| - 1]);
      CompleteStep(RunFrom(Initial(t), steps[..|steps| - 1]).value, steps[|steps| - 1]);
    }
  }

  // ----- closing -----

  /** Never more than 64 unread events in a channel. */
  ghost predicate Bounded(s: System) {
    forall i :: 0 <= i < |s.watchers| ==> s.watchers[i].read <= |s.watchers[i].got| <= s.watchers[i].read + 64
  }

  lemma {:induction false} EveryScheduleBounded(t: Table, steps: seq<Step>)
    requires RunFrom(Initial(t), steps).Some?
    ensures Bounded(RunFrom(Initial(t), steps).value)
    decreases |steps|
  {
    if steps != [] {
      EveryScheduleBounded(t, steps[..|steps| - 1]);
      BoundedStep(RunFrom(Initial(t), steps[..|steps| - 1]).value, steps[|steps| - 1]);
    }
  }

  lemma BoundedStep(s: System, a: Step)
    requires Bounded(s) && Enabled(s, a)
    ensures Bounded(Do(s, a))
  {
  }

  /**
   * In every schedule a step closes an open watcher if and only if it is its own close or offers it an event when
   * 64 are unread; only an offer with fewer unread is put in its channel, last; only its read takes from it. A
   * new watcher is open, with nothing in its channel.
   */
  lemma ScheduleClosesExactly(t: Table, steps: seq<Step>, s: System, a: Step, i: nat)
    requires RunFrom(Initial(t), steps) == Some(s) && Enabled(s, a)
    requires i < |s.watchers| && s.watchers[i].open
    ensures i < |Do(s, a).watchers|
    ensures a.Subscribe? ==> Do(s, a).watchers == s.watchers + [Watcher(MirrorOf(s.table), |s.log|, [], 0, true)]
    ensures var w, w' := s.watchers[i], Do(s, a).watchers[i];
            var unread := |w.got| - w.read;
            var offered := a.Deliver? && a.i == i;
            && unread <= 64
            && (!w'.open <==> a == Close(i) || (offered && unread == 64))
            && w'.got == (if offered && unread < 64 then w.got + [s.tasks[a.tid].tags[0]] else w.got)
            && w'.read == (if a == Read(i) then w.read + 1 else w.read)
            && w'.base == w.base && w'.start == w.start
  {
    EveryScheduleBounded(t, steps);
  }
}
