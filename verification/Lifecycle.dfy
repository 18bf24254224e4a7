/**
 * Locks and subscription lifecycles under interleaving. Threads are RPC handlers and context
 * goroutines; every lock operation is its own step, so that notify may re-enter Close while other
 * threads hold the affiliates lock, the subscribers lock or a subscription's once-guard.
 */
module Lifecycle {
  import opened Basics

  /** Where Close returns to: its caller is done, or goes on notifying. */
  datatype Return = Done | Resume(events: nat, rest: set<nat>)

  datatype PC =
    | Idle
    // Update, Delete or Prune: commit under the affiliates lock, then notify event by event
    | WantAffiliates(events: nat)
    | InAffiliates(events: nat)
    | WantSubscribers(events: nat)
    | InSubscribers(events: nat)
    | Telling(events: nat, rest: set<nat>)
    // the closed flag of s was down: send to its event channel; if that is full, report on its error
    // channel and then close it
    | Sending(s: nat, events: nat, rest: set<nat>)
    | Reporting(s: nat, events: nat, rest: set<nat>)
    // Close: the once-guard, then the subscribers lock
    | WantOnce(s: nat, back: Return)
    | InOnce(s: nat, back: Return)
    | CloseWants(s: nat, back: Return)
    | CloseHolds(s: nat, back: Return)
    | CloseEvents(s: nat, owned: bool, back: Return)
    | CloseErrors(s: nat, owned: bool, back: Return)
    | LeaveOnce(s: nat, back: Return)
    // SubscribeWithSnapshot: both locks, affiliates first
    | SubWantsAffiliates(s: nat)
    | SubHoldsAffiliates(s: nat)
    | SubHoldsBoth(s: nat)
    | SubLeaving(s: nat)
    // IsEmpty: one lock after the other
    | EmptyWantsAffiliates
    | EmptyHoldsAffiliates
    | EmptyWantsSubscribers
    | EmptyHoldsSubscribers

  /** One subscription: the closed flag, its once-guard, its place in the subscriber map, its channels. */
  datatype Sub = Sub(published: bool, closed: bool, done: bool, guard: Option<nat>, listed: bool,
                     eventCloses: nat, errorCloses: nat)

  /**
   * Subscription ids are positions in `subs`, handed out by an atomic counter. A send on a closed channel
   * crashes the process, after which nothing happens any more.
   */
  datatype System = System(threads: map<nat, PC>, affiliates: Option<nat>, subscribers: Option<nat>, subs: seq<Sub>,
                           crashed: bool)

  datatype Step =
    | StartCommit(t: nat, events: nat)
    | StartClose(t: nat, s: nat)
    | StartSubscribe(t: nat)
    | StartEmpty(t: nat)
    | Go(t: nat, s: nat, overflow: bool)

  const Initial := System(map[], None, None, [], false)

  function At(x: System, t: nat): PC {
    if t in x.threads then x.threads[t] else Idle
  }

  function Set(x: System, t: nat, pc: PC): System {
    x.(threads := x.threads[t := pc])
  }

  function SetSub(x: System, s: nat, sub: Sub): System
    requires s < |x.subs|
  {
    x.(subs := x.subs[s := sub])
  }

  function Listed(x: System): set<nat> {
    set s | 0 <= s < |x.subs| && x.subs[s].listed
  }

  /** After the last subscriber of an event comes the next event, if there is one. */
  function Notifying(events: nat): PC {
    if events == 0 then Idle else WantSubscribers(events)
  }

  function Back(r: Return): PC {
    match r
    case Done => Idle
    case Resume(events, rest) => Telling(events, rest)
  }

  /** The subscription a thread works on, when it works on one. */
  function Subject(pc: PC): Option<nat> {
    match pc
    case Sending(s, _, _) => Some(s)
    case Reporting(s, _, _) => Some(s)
    case WantOnce(s, _) => Some(s)
    case InOnce(s, _) => Some(s)
    case CloseWants(s, _) => Some(s)
    case CloseHolds(s, _) => Some(s)
    case CloseEvents(s, _, _) => Some(s)
    case CloseErrors(s, _, _) => Some(s)
    case LeaveOnce(s, _) => Some(s)
    case SubWantsAffiliates(s) => Some(s)
    case SubHoldsAffiliates(s) => Some(s)
    case SubHoldsBoth(s) => Some(s)
    case SubLeaving(s) => Some(s)
    case _ => None
  }

  /** A thread can move unless the lock it wants is taken. */
  predicate CanGo(x: System, t: nat) {
    match At(x, t)
    case Idle => false
    case WantAffiliates(_) => x.affiliates.None?
    case WantSubscribers(_) => x.subscribers.None?
    case WantOnce(s, _) => s < |x.subs| && (x.subs[s].done || x.subs[s].guard.None?)
    case CloseWants(_, _) => x.subscribers.None?
    case SubWantsAffiliates(_) => x.affiliates.None?
    case SubHoldsAffiliates(_) => x.subscribers.None?
    case EmptyWantsAffiliates => x.affiliates.None?
    case EmptyWantsSubscribers => x.subscribers.None?
    case _ => true
  }

  predicate Enabled(x: System, a: Step) {
    !x.crashed &&
    match a
    case StartCommit(t, _) => At(x, t).Idle?
    case StartClose(t, s) => At(x, t).Idle? && s < |x.subs| && x.subs[s].published
    case StartSubscribe(t) => At(x, t).Idle?
    case StartEmpty(t) => At(x, t).Idle?
    case Go(t, s, _) =>
      && CanGo(x, t)
      && (Subject(At(x, t)).Some? ==> Subject(At(x, t)).value < |x.subs|)
      && (At(x, t).Telling? && At(x, t).rest != {} ==> s in At(x, t).rest && s < |x.subs|)
      && (At(x, t).Telling? || At(x, t).Sending? || At(x, t).Reporting? ==> At(x, t).events > 0)
  }

  function Do(x: System, a: Step): System
    requires Enabled(x, a)
  {
    match a
    case StartCommit(t, events) => Set(x, t, WantAffiliates(events))
    case StartClose(t, s) => Set(x, t, WantOnce(s, Done))
    case StartSubscribe(t) =>
      Set(x.(subs := x.subs + [Sub(false, false, false, None, false, 0, 0)]), t, SubWantsAffiliates(|x.subs|))
    case StartEmpty(t) => Set(x, t, EmptyWantsAffiliates)
    case Go(t, s, overflow) => Advance(x, t, s, overflow)
  }

  function Advance(x: System, t: nat, chosen: nat, overflow: bool): System
    requires Enabled(x, Go(t, chosen, overflow))
  {
    match At(x, t)
    case Idle => x
    case WantAffiliates(events) => Set(x.(affiliates := Some(t)), t, InAffiliates(events))
    case InAffiliates(events) => Set(x.(affiliates := None), t, Notifying(events))
    case WantSubscribers(events) => Set(x.(subscribers := Some(t)), t, InSubscribers(events))
    case InSubscribers(events) =>
      Set(x.(subscribers := None), t, if events == 0 then Idle else Telling(events, Listed(x)))
    case Telling(events, rest) =>
      if rest == {} then Set(x, t, Notifying(events - 1))
      else if x.subs[chosen].closed then Set(x, t, Telling(events, rest - {chosen}))
      else Set(x, t, Sending(chosen, events, rest - {chosen}))
    case Sending(s, events, rest) =>
      if x.subs[s].eventCloses > 0 then Set(x.(crashed := true), t, Idle)
      else if !overflow then Set(x, t, Telling(events, rest))
      else Set(x, t, Reporting(s, events, rest))
    case Reporting(s, events, rest) =>
      if x.subs[s].errorCloses > 0 then Set(x.(crashed := true), t, Idle)
      else Set(x, t, WantOnce(s, Resume(events, rest)))
    case WantOnce(s, back) =>
      if x.subs[s].done then Set(x, t, Back(back))
      else Set(SetSub(x, s, x.subs[s].(guard := Some(t))), t, InOnce(s, back))
    case InOnce(s, back) => Set(SetSub(x, s, x.subs[s].(closed := true)), t, CloseWants(s, back))
    case CloseWants(s, back) => Set(x.(subscribers := Some(t)), t, CloseHolds(s, back))
    case CloseHolds(s, back) =>
      Set(SetSub(x.(subscribers := None), s, x.subs[s].(listed := false)), t, CloseEvents(s, x.subs[s].listed, back))
    case CloseEvents(s, owned, back) =>
      var sub := x.subs[s];
      Set(SetSub(x, s, if owned then sub.(eventCloses := sub.eventCloses + 1) else sub), t, CloseErrors(s, owned, back))
    case CloseErrors(s, owned, back) =>
      var sub := x.subs[s];
      Set(SetSub(x, s, if owned then sub.(errorCloses := sub.errorCloses + 1) else sub), t, LeaveOnce(s, back))
    case LeaveOnce(s, back) => Set(SetSub(x, s, x.subs[s].(done := true, guard := None)), t, Back(back))
    case SubWantsAffiliates(s) => Set(x.(affiliates := Some(t)), t, SubHoldsAffiliates(s))
    case SubHoldsAffiliates(s) => Set(x.(subscribers := Some(t)), t, SubHoldsBoth(s))
    case SubHoldsBoth(s) =>
      Set(SetSub(x.(subscribers := None), s, x.subs[s].(listed := true, published := true)), t, SubLeaving(s))
    case SubLeaving(s) => Set(x.(affiliates := None), t, Idle)
    case EmptyWantsAffiliates => Set(x.(affiliates := Some(t)), t, EmptyHoldsAffiliates)
    case EmptyHoldsAffiliates => Set(x.(affiliates := None), t, EmptyWantsSubscribers)
    case EmptyWantsSubscribers => Set(x.(subscribers := Some(t)), t, EmptyHoldsSubscribers)
    case EmptyHoldsSubscribers => Set(x.(subscribers := None), t, Idle)
  }

  function After(steps: seq<Step>): Option<System>
    decreases |steps|
  {
    if steps == [] then Some(Initial)
    else
      var p := After(steps[..|steps| - 1]);
      if p.Some? && Enabled(p.value, steps[|steps| - 1]) then Some(Do(p.value, steps[|steps| - 1])) else None
  }

  // ----- who holds what -----

  predicate HoldsAffiliates(pc: PC) {
    pc.InAffiliates? || pc.SubHoldsAffiliates? || pc.SubHoldsBoth? || pc.SubLeaving? || pc.EmptyHoldsAffiliates?
  }

  predicate HoldsSubscribers(pc: PC) {
    pc.InSubscribers? || pc.CloseHolds? || pc.SubHoldsBoth? || pc.EmptyHoldsSubscribers?
  }

  predicate HoldsGuard(pc: PC, s: nat) {
    match pc
    case InOnce(k, _) => k == s
    case CloseWants(k, _) => k == s
    case CloseHolds(k, _) => k == s
    case CloseEvents(k, _, _) => k == s
    case CloseErrors(k, _, _) => k == s
    case LeaveOnce(k, _) => k == s
    case _ => false
  }

  /** Each lock is held by exactly the thread whose position says so. */
  ghost predicate AffiliatesMatch(x: System) {
    forall t: nat :: HoldsAffiliates(At(x, t)) <==> x.affiliates == Some(t)
  }

  ghost predicate SubscribersMatch(x: System) {
    forall t: nat :: HoldsSubscribers(At(x, t)) <==> x.subscribers == Some(t)
  }

  ghost predicate GuardsMatch(x: System) {
    forall t: nat, s: nat :: s < |x.subs| ==> (HoldsGuard(At(x, t), s) <==> x.subs[s].guard == Some(t))
  }

  function ReturnOf(pc: PC): Return {
    match pc
    case WantOnce(_, back) => back
    case InOnce(_, back) => back
    case CloseWants(_, back) => back
    case CloseHolds(_, back) => back
    case CloseEvents(_, _, back) => back
    case CloseErrors(_, _, back) => back
    case LeaveOnce(_, back) => back
    case _ => Done
  }

  ghost predicate AllPublished(x: System, rest: set<nat>) {
    forall s :: s in rest ==> s < |x.subs| && x.subs[s].published
  }

  /** A position refers to subscriptions that exist, and a notify loop to published ones and an event. */
  ghost predicate PositionValid(x: System, pc: PC) {
    && (Subject(pc).Some? ==> Subject(pc).value < |x.subs|)
    && (pc.Telling? || pc.Sending? || pc.Reporting? ==> pc.events > 0 && AllPublished(x, pc.rest))
    && (pc.WantOnce? || pc.Sending? || pc.Reporting? ==> x.subs[pc.s].published)
    && (pc.WantSubscribers? || pc.InSubscribers? ==> pc.events > 0)
    && (ReturnOf(pc).Resume? ==> ReturnOf(pc).events > 0 && AllPublished(x, ReturnOf(pc).rest))
  }

  ghost predicate PositionsValid(x: System) {
    && (forall t: nat :: PositionValid(x, At(x, t)))
    && forall s: nat :: s < |x.subs| && x.subs[s].listed ==> x.subs[s].published
  }

  /** A lock goes to the mover, comes back from it, or stays where it is. */
  predicate Passed(before: Option<nat>, after: Option<nat>, t: nat) {
    after == before || (before.None? && after == Some(t)) || (before == Some(t) && after.None?)
  }

  lemma MoverAffiliates(x: System, a: Step)
    requires Enabled(x, a) && (HoldsAffiliates(At(x, a.t)) <==> x.affiliates == Some(a.t))
    ensures HoldsAffiliates(At(Do(x, a), a.t)) <==> Do(x, a).affiliates == Some(a.t)
    ensures Passed(x.affiliates, Do(x, a).affiliates, a.t)
  {
  }

  lemma MoverSubscribers(x: System, a: Step)
    requires Enabled(x, a) && (HoldsSubscribers(At(x, a.t)) <==> x.subscribers == Some(a.t))
    ensures HoldsSubscribers(At(Do(x, a), a.t)) <==> Do(x, a).subscribers == Some(a.t)
    ensures Passed(x.subscribers, Do(x, a).subscribers, a.t)
  {
  }

  lemma CloserGuard(x: System, a: Step, s: nat)
    requires Enabled(x, a) && a.Go? && s < |x.subs| && Subject(At(x, a.t)) == Some(s)
    requires HoldsGuard(At(x, a.t), s) <==> x.subs[s].guard == Some(a.t)
    ensures |x.subs| == |Do(x, a).subs|
    ensures HoldsGuard(At(Do(x, a), a.t), s) <==> Do(x, a).subs[s].guard == Some(a.t)
    ensures Passed(x.subs[s].guard, Do(x, a).subs[s].guard, a.t)
  {
  }

  lemma NoGuard(x: System, a: Step, s: nat)
    requires Enabled(x, a) && s < |x.subs| && !(a.Go? && Subject(At(x, a.t)) == Some(s))
    requires !HoldsGuard(At(x, a.t), s)
    ensures |x.subs| <= |Do(x, a).subs|
    ensures Do(x, a).subs[s].guard == x.subs[s].guard && !HoldsGuard(At(Do(x, a), a.t), s)
  {
  }

  lemma MoverGuard(x: System, a: Step, s: nat)
    requires Enabled(x, a) && s < |x.subs|
    requires HoldsGuard(At(x, a.t), s) <==> x.subs[s].guard == Some(a.t)
    ensures |x.subs| <= |Do(x, a).subs|
    ensures HoldsGuard(At(Do(x, a), a.t), s) <==> Do(x, a).subs[s].guard == Some(a.t)
    ensures Passed(x.subs[s].guard, Do(x, a).subs[s].guard, a.t)
  {
    if a.Go? && Subject(At(x, a.t)) == Some(s) {
      CloserGuard(x, a, s);
    } else {
      assert !HoldsGuard(At(x, a.t), s);
      NoGuard(x, a, s);
    }
  }

  lemma OthersStay(x: System, a: Step, u: nat)
    requires Enabled(x, a) && u != a.t
    ensures At(Do(x, a), u) == At(x, u)
  {
  }

  lemma AffiliatesStep(x: System, a: Step)
    requires AffiliatesMatch(x) && Enabled(x, a)
    ensures AffiliatesMatch(Do(x, a))
  {
    MoverAffiliates(x, a);
    forall t: nat
      ensures HoldsAffiliates(At(Do(x, a), t)) <==> Do(x, a).affiliates == Some(t)
    {
      assert HoldsAffiliates(At(x, t)) <==> x.affiliates == Some(t);
      if t != a.t {
        OthersStay(x, a, t);
      }
    }
  }

  lemma SubscribersStep(x: System, a: Step)
    requires SubscribersMatch(x) && Enabled(x, a)
    ensures SubscribersMatch(Do(x, a))
  {
    MoverSubscribers(x, a);
    forall t: nat
      ensures HoldsSubscribers(At(Do(x, a), t)) <==> Do(x, a).subscribers == Some(t)
    {
      assert HoldsSubscribers(At(x, t)) <==> x.subscribers == Some(t);
      if t != a.t {
        OthersStay(x, a, t);
      }
    }
  }

  lemma GuardStepAt(x: System, a: Step, t: nat, s: nat)
    requires GuardsMatch(x) && PositionsValid(x) && Enabled(x, a) && s < |x.subs|
    ensures |x.subs| <= |Do(x, a).subs|
    ensures HoldsGuard(At(Do(x, a), t), s) <==> Do(x, a).subs[s].guard == Some(t)
  {
    assert PositionValid(x, At(x, a.t));
    assert HoldsGuard(At(x, t), s) <==> x.subs[s].guard == Some(t);
    assert HoldsGuard(At(x, a.t), s) <==> x.subs[s].guard == Some(a.t);
    MoverGuard(x, a, s);
    if t != a.t {
      OthersStay(x, a, t);
    }
  }

  /** A new subscription is guarded by nobody. */
  lemma NewUnguarded(x: System, a: Step, t: nat, s: nat)
    requires PositionsValid(x) && Enabled(x, a) && |x.subs| <= s < |Do(x, a).subs|
    ensures Do(x, a).subs[s].guard.None? && !HoldsGuard(At(Do(x, a), t), s)
  {
    assert PositionValid(x, At(x, t));
    if t != a.t {
      OthersStay(x, a, t);
    }
  }

  lemma GuardsStep(x: System, a: Step)
    requires GuardsMatch(x) && PositionsValid(x) && Enabled(x, a)
    ensures GuardsMatch(Do(x, a))
  {
    forall t: nat, s: nat | s < |Do(x, a).subs|
      ensures HoldsGuard(At(Do(x, a), t), s) <==> Do(x, a).subs[s].guard == Some(t)
    {
      if s < |x.subs| {
        GuardStepAt(x, a, t, s);
      } else {
        NewUnguarded(x, a, t, s);
      }
    }
  }

  /** Subscriptions are only added, and a published one stays published. */
  ghost predicate Grows(x: System, x': System) {
    |x.subs| <= |x'.subs| && forall s: nat :: s < |x.subs| && x.subs[s].published ==> x'.subs[s].published
  }

  lemma StepGrows(x: System, a: Step)
    requires PositionValid(x, At(x, a.t)) && Enabled(x, a)
    ensures Grows(x, Do(x, a))
  {
  }

  lemma PositionStaysValid(x: System, x': System, pc: PC)
    requires Grows(x, x') && PositionValid(x, pc)
    ensures PositionValid(x', pc)
  {
  }

  /** Where a mover goes is as valid as where it was, seen before the step's own changes. */
  lemma CloserPositionValid(x: System, a: Step)
    requires PositionValid(x, At(x, a.t)) && Enabled(x, a) && a.Go? && Subject(At(x, a.t)).Some?
    ensures PositionValid(x, At(Do(x, a), a.t))
  {
  }

  lemma NotifierPositionValid(x: System, a: Step)
    requires PositionsValid(x) && Enabled(x, a) && a.Go? && Subject(At(x, a.t)).None?
    ensures PositionValid(x, At(Do(x, a), a.t))
  {
    assert PositionValid(x, At(x, a.t));
  }

  lemma NewPositionValid(x: System, a: Step)
    requires PositionsValid(x) && Enabled(x, a)
    ensures PositionValid(Do(x, a), At(Do(x, a), a.t))
  {
    assert PositionValid(x, At(x, a.t));
    StepGrows(x, a);
    if a.Go? {
      if Subject(At(x, a.t)).Some? {
        CloserPositionValid(x, a);
      } else {
        NotifierPositionValid(x, a);
      }
      PositionStaysValid(x, Do(x, a), At(Do(x, a), a.t));
    }
  }

  lemma ListedPublished(x: System, a: Step)
    requires PositionsValid(x) && Enabled(x, a)
    ensures forall s: nat :: s < |Do(x, a).subs| && Do(x, a).subs[s].listed ==> Do(x, a).subs[s].published
  {
    assert PositionValid(x, At(x, a.t));
  }

  lemma PositionsStep(x: System, a: Step)
    requires PositionsValid(x) && Enabled(x, a)
    ensures PositionsValid(Do(x, a))
  {
    var x' := Do(x, a);
    assert PositionValid(x, At(x, a.t));
    StepGrows(x, a);
    ListedPublished(x, a);
    forall t: nat
      ensures PositionValid(x', At(x', t))
    {
      if t == a.t {
        NewPositionValid(x, a);
      } else {
        OthersStay(x, a, t);
        PositionStaysValid(x, x', At(x, t));
      }
    }
  }
}
