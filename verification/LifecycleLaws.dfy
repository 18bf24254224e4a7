/**
 * What every interleaving of the lifecycle machine keeps: channels are closed at most once and only
 * after the closed flag, a finished close means the subscription is gone from the subscriber map, each
 * id is registered once, no reachable state deadlocks, and every operation completes.
 */
module LifecycleLaws {
  import opened Basics
  import opened Lifecycle

  /** Nobody has entered the once-guard: listed exactly when registered. */
  predicate Untouched(sub: Sub) {
    !sub.closed && !sub.done && sub.eventCloses == 0 && sub.errorCloses == 0 && sub.listed == sub.published
  }

  predicate Finished(sub: Sub) {
    sub.published && sub.closed && sub.done && !sub.listed && sub.eventCloses == 1 && sub.errorCloses == 1
  }

  /** The thread inside the once-guard tells how far the close has come. */
  predicate Underway(sub: Sub, pc: PC) {
    && sub.published && !sub.done
    && sub.closed == !pc.InOnce?
    && sub.listed == (pc.InOnce? || pc.CloseWants? || pc.CloseHolds?)
    && sub.eventCloses == (if pc.CloseErrors? || pc.LeaveOnce? then 1 else 0)
    && sub.errorCloses == (if pc.LeaveOnce? then 1 else 0)
    && (pc.CloseEvents? || pc.CloseErrors? ==> pc.owned)
  }

  predicate SubSound(x: System, s: nat)
    requires s < |x.subs|
  {
    var sub := x.subs[s];
    if sub.guard.Some? then Underway(sub, At(x, sub.guard.value))
    else if sub.done then Finished(sub)
    else Untouched(sub)
  }

  predicate Registering(pc: PC, s: nat) {
    match pc
    case SubWantsAffiliates(k) => k == s
    case SubHoldsAffiliates(k) => k == s
    case SubHoldsBoth(k) => k == s
    case _ => false
  }

  predicate Unregistered(x: System, s: nat) {
    s < |x.subs| && !x.subs[s].published
  }

  /** An id in the middle of registration belongs to one thread and has never been registered. */
  ghost predicate RegistrationsSound(x: System) {
    && (forall t: nat, s: nat {:trigger Registering(At(x, t), s)} :: Registering(At(x, t), s) ==> Unregistered(x, s))
    && forall t: nat, u: nat, s: nat :: Registering(At(x, t), s) && Registering(At(x, u), s) ==> t == u
  }

  ghost predicate SubsSound(x: System) {
    forall s: nat :: s < |x.subs| ==> SubSound(x, s)
  }

  ghost predicate Sound(x: System) {
    && AffiliatesMatch(x) && SubscribersMatch(x) && GuardsMatch(x)
    && PositionsValid(x) && RegistrationsSound(x) && SubsSound(x)
  }

  // ----- the invariant is kept -----

  /** Who registers an id after a step did so before it, or has just been handed that id. */
  lemma RegistrationOrigin(x: System, a: Step, t: nat, s: nat)
    requires Enabled(x, a) && Registering(At(Do(x, a), t), s)
    ensures if a.StartSubscribe? && t == a.t then s == |x.subs|
            else Registering(At(x, t), s) && (t == a.t ==> At(x, a.t) != SubHoldsBoth(s))
  {
    if t != a.t {
      OthersStay(x, a, t);
    }
  }

  lemma StaysUnregistered(x: System, a: Step, s: nat)
    requires Enabled(x, a) && Unregistered(x, s) && !(a.Go? && At(x, a.t) == SubHoldsBoth(s))
    requires PositionValid(x, At(x, a.t))
    ensures Unregistered(Do(x, a), s)
  {
  }

  lemma NewUnregistered(x: System, a: Step)
    requires Enabled(x, a) && a.StartSubscribe?
    ensures Unregistered(Do(x, a), |x.subs|)
  {
  }

  lemma RegistrationStep(x: System, a: Step, t: nat, s: nat)
    requires RegistrationsSound(x) && PositionsValid(x) && Enabled(x, a) && Registering(At(Do(x, a), t), s)
    ensures Unregistered(Do(x, a), s)
  {
    assert PositionValid(x, At(x, a.t));
    RegistrationOrigin(x, a, t, s);
    if a.StartSubscribe? && t == a.t {
      NewUnregistered(x, a);
    } else {
      assert Registering(At(x, t), s);
      assert At(x, a.t) == SubHoldsBoth(s) ==> Registering(At(x, a.t), s);
      StaysUnregistered(x, a, s);
    }
  }

  lemma RegistrantStep(x: System, a: Step, t: nat, u: nat, s: nat)
    requires RegistrationsSound(x) && Enabled(x, a)
    requires Registering(At(Do(x, a), t), s) && Registering(At(Do(x, a), u), s)
    ensures t == u
  {
    RegistrationOrigin(x, a, t, s);
    RegistrationOrigin(x, a, u, s);
    assert Registering(At(x, t), s) ==> Unregistered(x, s);
    assert Registering(At(x, u), s) ==> Unregistered(x, s);
  }

  lemma RegistrationsStep(x: System, a: Step)
    requires RegistrationsSound(x) && PositionsValid(x) && Enabled(x, a)
    ensures RegistrationsSound(Do(x, a))
  {
    forall t: nat, s: nat | Registering(At(Do(x, a), t), s)
      ensures Unregistered(Do(x, a), s)
    {
      RegistrationStep(x, a, t, s);
    }
    forall t: nat, u: nat, s: nat | Registering(At(Do(x, a), t), s) && Registering(At(Do(x, a), u), s)
      ensures t == u
    {
      RegistrantStep(x, a, t, u, s);
    }
  }

  /** A subscription the moving thread does not guard keeps its guard's position. */
  lemma OthersStaySound(x: System, a: Step, s: nat)
    requires GuardsMatch(x) && PositionsValid(x) && Enabled(x, a) && s < |x.subs| && SubSound(x, s)
    requires s < |Do(x, a).subs| && Do(x, a).subs[s] == x.subs[s] && x.subs[s].guard != Some(a.t)
    ensures SubSound(Do(x, a), s)
  {
    if x.subs[s].guard.Some? {
      OthersStay(x, a, x.subs[s].guard.value);
    }
  }

  lemma GuardedStaysSound(x: System, a: Step, s: nat)
    requires Sound(x) && Enabled(x, a) && s < |x.subs| && HoldsGuard(At(x, a.t), s)
    ensures SubSound(Do(x, a), s)
  {
    assert x.subs[s].guard == Some(a.t);
    assert SubSound(x, s);
  }

  lemma EnteredStaysSound(x: System, a: Step, s: nat)
    requires Sound(x) && Enabled(x, a) && s < |x.subs| && a.Go? && At(x, a.t).WantOnce? && At(x, a.t).s == s
    ensures SubSound(Do(x, a), s)
  {
    assert SubSound(x, s) && PositionValid(x, At(x, a.t));
  }

  lemma RegisteredStaysSound(x: System, a: Step, s: nat)
    requires Sound(x) && Enabled(x, a) && s < |x.subs| && a.Go? && At(x, a.t) == SubHoldsBoth(s)
    ensures SubSound(Do(x, a), s)
  {
    assert SubSound(x, s) && Registering(At(x, a.t), s);
  }

  lemma SubsStep(x: System, a: Step)
    requires Sound(x) && Enabled(x, a)
    ensures SubsSound(Do(x, a))
  {
    forall s: nat | s < |Do(x, a).subs|
      ensures SubSound(Do(x, a), s)
    {
      if s < |x.subs| {
        assert SubSound(x, s);
        assert HoldsGuard(At(x, a.t), s) <==> x.subs[s].guard == Some(a.t);
        if HoldsGuard(At(x, a.t), s) {
          GuardedStaysSound(x, a, s);
        } else if a.Go? && At(x, a.t).WantOnce? && At(x, a.t).s == s {
          EnteredStaysSound(x, a, s);
        } else if a.Go? && At(x, a.t) == SubHoldsBoth(s) {
          RegisteredStaysSound(x, a, s);
        } else {
          OthersStaySound(x, a, s);
        }
      }
    }
  }

  lemma SoundStep(x: System, a: Step)
    requires Sound(x) && Enabled(x, a)
    ensures Sound(Do(x, a))
  {
    AffiliatesStep(x, a);
    SubscribersStep(x, a);
    GuardsStep(x, a);
    PositionsStep(x, a);
    RegistrationsStep(x, a);
    SubsStep(x, a);
  }

  lemma {:induction false} EveryScheduleSound(steps: seq<Step>)
    requires After(steps).Some?
    ensures Sound(After(steps).value)
    decreases |steps|
  {
    if steps != [] {
      var n := |steps| - 1;
      EveryScheduleSound(steps[..n]);
      SoundStep(After(steps[..n]).value, steps[n]);
    }
  }

  // ----- closing -----

  /**
   * However the context goroutine, the handler's defer and overflowing notifies interleave: each channel
   * is closed at most once, never while the closed flag is down, and a finished close means absent for good.
   */
  lemma ClosedOnce(steps: seq<Step>, s: nat)
    requires After(steps).Some? && s < |After(steps).value.subs|
    ensures var sub := After(steps).value.subs[s];
            && sub.errorCloses <= sub.eventCloses <= 1
            && (sub.eventCloses == 1 ==> sub.closed && !sub.listed)
            && (sub.done ==> !sub.listed && sub.eventCloses == sub.errorCloses == 1)
            && (sub.listed ==> sub.published && sub.eventCloses == 0)
            && (sub.published && !sub.closed ==> sub.listed)
  {
    EveryScheduleSound(steps);
    assert SubSound(After(steps).value, s);
  }

  /** An id is put into the subscriber map once: whoever registers it finds it never registered. */
  lemma RegisteredOnce(steps: seq<Step>, t: nat, s: nat)
    requires After(steps).Some? && At(After(steps).value, t) == SubHoldsBoth(s)
    ensures s < |After(steps).value.subs| && !After(steps).value.subs[s].published
  {
    EveryScheduleSound(steps);
    assert Registering(At(After(steps).value, t), s);
  }

  /** What a step may never undo: registration, the closed flag, a finished close. */
  lemma NothingReopens(steps: seq<Step>, s: nat)
    requires |steps| > 0 && After(steps).Some? && s < |After(steps[..|steps| - 1]).value.subs|
    ensures var before := After(steps[..|steps| - 1]).value.subs[s];
            var after := After(steps).value.subs[s];
            && (before.published ==> after.published)
            && (before.closed ==> after.closed)
            && (before.done ==> after == before)
            && (before.published && !before.listed ==> !after.listed)
            && before.eventCloses <= after.eventCloses && before.errorCloses <= after.errorCloses
  {
    var n := |steps| - 1;
    EveryScheduleSound(steps[..n]);
    StepReopensNothing(After(steps[..n]).value, steps[n], s);
  }

  lemma StepReopensNothing(x: System, a: Step, s: nat)
    requires Sound(x) && Enabled(x, a) && s < |x.subs|
    ensures s < |Do(x, a).subs|
    ensures var before, after := x.subs[s], Do(x, a).subs[s];
            && (before.published ==> after.published)
            && (before.closed ==> after.closed)
            && (before.done ==> after == before)
            && (before.published && !before.listed ==> !after.listed)
            && before.eventCloses <= after.eventCloses && before.errorCloses <= after.errorCloses
  {
    assert SubSound(x, s);
    assert HoldsGuard(At(x, a.t), s) <==> x.subs[s].guard == Some(a.t);
    assert Registering(At(x, a.t), s) ==> !x.subs[s].published;
  }

  // ----- no deadlock -----

  ghost predicate CanMove(x: System, t: nat) {
    exists s: nat :: Enabled(x, Go(t, s, false))
  }

  lemma Moves(x: System, t: nat)
    requires Sound(x) && !x.crashed && CanGo(x, t)
    ensures CanMove(x, t)
  {
    assert PositionValid(x, At(x, t));
    var s: nat := if At(x, t).Telling? && At(x, t).rest != {} then Some0(At(x, t).rest) else 0;
    assert Enabled(x, Go(t, s, false));
  }

  ghost function Some0(rest: set<nat>): (s: nat)
    requires rest != {}
    ensures s in rest
  {
    var s :| s in rest;
    s
  }

  /** Whoever holds the subscribers lock waits for nobody. */
  lemma SubscribersHolderMoves(x: System)
    requires Sound(x) && !x.crashed && x.subscribers.Some?
    ensures CanMove(x, x.subscribers.value)
  {
    assert HoldsSubscribers(At(x, x.subscribers.value));
    Moves(x, x.subscribers.value);
  }

  /** Whoever holds the affiliates lock or a once-guard waits at most for the subscribers lock. */
  lemma OuterHolderMoves(x: System, t: nat)
    requires Sound(x) && !x.crashed && (x.affiliates == Some(t) || exists s: nat :: HoldsGuard(At(x, t), s))
    ensures exists u: nat :: CanMove(x, u)
  {
    assert x.affiliates == Some(t) ==> HoldsAffiliates(At(x, t));
    if x.subscribers.Some? {
      SubscribersHolderMoves(x);
    } else {
      Moves(x, t);
    }
  }

  lemma SoundNeverStuck(x: System, t: nat)
    requires Sound(x) && !x.crashed && At(x, t) != Idle
    ensures exists u: nat :: CanMove(x, u)
  {
    var pc := At(x, t);
    assert PositionValid(x, pc);
    if CanGo(x, t) {
      Moves(x, t);
    } else if pc.WantOnce? {
      var holder := x.subs[pc.s].guard.value;
      assert HoldsGuard(At(x, holder), pc.s);
      OuterHolderMoves(x, holder);
    } else if x.subscribers.Some? {
      SubscribersHolderMoves(x);
    } else {
      OuterHolderMoves(x, x.affiliates.value);
    }
  }

  /** No reachable state deadlocks: while any operation is unfinished, some unfinished one can take its next step. */
  lemma NeverStuck(steps: seq<Step>, t: nat)
    requires After(steps).Some? && !After(steps).value.crashed && At(After(steps).value, t) != Idle
    ensures exists u: nat :: CanMove(After(steps).value, u)
  {
    EveryScheduleSound(steps);
    SoundNeverStuck(After(steps).value, t);
  }

  // ----- every operation completes -----

  /** Steps left for the remaining events of a commit when there are n subscriptions. */
  function Rounds(events: nat, n: nat): nat {
    if events == 0 then 0 else Rounds(events - 1, n) + 10 * n + 4
  }

  function LeftAfter(back: Return, n: nat): nat {
    match back
    case Done => 0
    case Resume(events, rest) => Rounds(if events == 0 then 0 else events - 1, n) + 10 * |rest| + 1
  }

  /** A bound on the steps a thread at this position still has to take. */
  function Left(pc: PC, n: nat): nat {
    match pc
    case Idle => 0
    case WantAffiliates(events) => Rounds(events, n) + 2
    case InAffiliates(events) => Rounds(events, n) + 1
    case WantSubscribers(events) => Rounds(events, n)
    case InSubscribers(events) => Rounds(if events == 0 then 0 else events - 1, n) + 10 * n + 3
    case Telling(events, rest) => LeftAfter(Resume(events, rest), n)
    case Sending(_, events, rest) => LeftAfter(Resume(events, rest), n) + 9
    case Reporting(_, events, rest) => LeftAfter(Resume(events, rest), n) + 8
    case WantOnce(_, back) => LeftAfter(back, n) + 7
    case InOnce(_, back) => LeftAfter(back, n) + 6
    case CloseWants(_, back) => LeftAfter(back, n) + 5
    case CloseHolds(_, back) => LeftAfter(back, n) + 4
    case CloseEvents(_, _, back) => LeftAfter(back, n) + 3
    case CloseErrors(_, _, back) => LeftAfter(back, n) + 2
    case LeaveOnce(_, back) => LeftAfter(back, n) + 1
    case SubWantsAffiliates(_) => 4
    case SubHoldsAffiliates(_) => 3
    case SubHoldsBoth(_) => 2
    case SubLeaving(_) => 1
    case EmptyWantsAffiliates => 4
    case EmptyHoldsAffiliates => 3
    case EmptyWantsSubscribers => 2
    case EmptyHoldsSubscribers => 1
  }

  /** The steps left for threads 0 to k - 1 together. */
  function TotalLeft(x: System, k: nat): nat {
    if k == 0 then 0 else TotalLeft(x, k - 1) + Left(At(x, k - 1), |x.subs|)
  }

  lemma {:induction false} Below(rest: set<nat>, n: nat)
    requires forall s :: s in rest ==> s < n
    ensures |rest| <= n
  {
    if n > 0 {
      Below(rest - {n - 1}, n - 1);
    }
  }

  lemma CommitterProgresses(x: System, t: nat, s: nat, overflow: bool)
    requires PositionsValid(x) && Enabled(x, Go(t, s, overflow))
    requires At(x, t).WantAffiliates? || At(x, t).InAffiliates? || At(x, t).WantSubscribers? || At(x, t).InSubscribers?
    ensures Left(At(Do(x, Go(t, s, overflow)), t), |x.subs|) < Left(At(x, t), |x.subs|)
  {
    assert PositionValid(x, At(x, t));
    Below(Listed(x), |x.subs|);
  }

  lemma NotifierProgresses(x: System, t: nat, s: nat, overflow: bool)
    requires Enabled(x, Go(t, s, overflow)) && At(x, t).Telling?
    ensures Left(At(Do(x, Go(t, s, overflow)), t), |x.subs|) < Left(At(x, t), |x.subs|)
  {
  }

  lemma SenderProgresses(x: System, t: nat, s: nat, overflow: bool)
    requires Enabled(x, Go(t, s, overflow)) && (At(x, t).Sending? || At(x, t).Reporting?)
    ensures Left(At(Do(x, Go(t, s, overflow)), t), |x.subs|) < Left(At(x, t), |x.subs|)
  {
  }

  /** The steps that may hand control back to a notify loop. */
  lemma ReturnerProgresses(x: System, t: nat, s: nat, overflow: bool)
    requires Enabled(x, Go(t, s, overflow)) && (At(x, t).WantOnce? || At(x, t).LeaveOnce?)
    ensures Left(At(Do(x, Go(t, s, overflow)), t), |x.subs|) < Left(At(x, t), |x.subs|)
  {
  }

  lemma CloserProgresses(x: System, t: nat, s: nat, overflow: bool)
    requires Enabled(x, Go(t, s, overflow)) && Subject(At(x, t)).Some?
    requires !At(x, t).Sending? && !At(x, t).Reporting? && !At(x, t).WantOnce? && !At(x, t).LeaveOnce?
    ensures Left(At(Do(x, Go(t, s, overflow)), t), |x.subs|) < Left(At(x, t), |x.subs|)
  {
  }

  lemma MoverProgresses(x: System, t: nat, s: nat, overflow: bool)
    requires PositionsValid(x) && Enabled(x, Go(t, s, overflow))
    ensures var x' := Do(x, Go(t, s, overflow));
            |x'.subs| == |x.subs| && Left(At(x', t), |x.subs|) < Left(At(x, t), |x.subs|)
  {
    assert PositionValid(x, At(x, t));
    var pc := At(x, t);
    if pc.Telling? {
      NotifierProgresses(x, t, s, overflow);
    } else if pc.Sending? || pc.Reporting? {
      SenderProgresses(x, t, s, overflow);
    } else if pc.WantAffiliates? || pc.InAffiliates? || pc.WantSubscribers? || pc.InSubscribers? {
      CommitterProgresses(x, t, s, overflow);
    } else if pc.WantOnce? || pc.LeaveOnce? {
      ReturnerProgresses(x, t, s, overflow);
    } else if Subject(pc).Some? {
      CloserProgresses(x, t, s, overflow);
    }
  }

  lemma {:induction false} TotalDrops(x: System, x': System, t: nat, k: nat)
    requires |x'.subs| == |x.subs| && forall u: nat :: u != t ==> At(x', u) == At(x, u)
    requires Left(At(x', t), |x.subs|) < Left(At(x, t), |x.subs|)
    ensures TotalLeft(x', k) + (if t < k then 1 else 0) <= TotalLeft(x, k)
  {
    if k > 0 {
      TotalDrops(x, x', t, k - 1);
    }
  }

  /** A schedule that starts no new operation. */
  ghost predicate OnlyMoves(x: System, moves: seq<Step>)
    decreases |moves|
  {
    moves == [] || (moves[0].Go? && Enabled(x, moves[0]) && OnlyMoves(Do(x, moves[0]), moves[1..]))
  }

  lemma MoveCounts(x: System, a: Step, k: nat)
    requires Sound(x) && Enabled(x, a) && a.Go?
    requires forall t: nat :: At(x, t) != Idle ==> t < k
    ensures TotalLeft(Do(x, a), k) + 1 <= TotalLeft(x, k)
    ensures forall t: nat :: At(Do(x, a), t) != Idle ==> t < k
  {
    MoverProgresses(x, a.t, a.s, a.overflow);
    forall u: nat | u != a.t
      ensures At(Do(x, a), u) == At(x, u)
    {
      OthersStay(x, a, u);
    }
    TotalDrops(x, Do(x, a), a.t, k);
  }

  /**
   * Once no new operation starts, every schedule is finite: at most TotalLeft further steps can be taken in
   * any order, and by NeverStuck a schedule only ends when every operation has finished or the process has
   * crashed.
   */
  lemma {:induction false} OperationsComplete(x: System, moves: seq<Step>, k: nat)
    requires Sound(x) && OnlyMoves(x, moves)
    requires forall t: nat :: At(x, t) != Idle ==> t < k
    ensures |moves| <= TotalLeft(x, k)
    decreases |moves|
  {
    if moves != [] {
      SoundStep(x, moves[0]);
      MoveCounts(x, moves[0], k);
      OperationsComplete(Do(x, moves[0]), moves[1..], k);
    }
  }
}
