/**
 * notify looks at the closed flag, sends on the event channel and, when that is full, on the error channel,
 * each in its own step. A close between them makes a send hit a closed channel, which crashes the process.
 * This module states exactly when that happens.
 */
module ClosedSends {
  import opened Basics
  import opened Lifecycle
  import opened LifecycleLaws

  /** The two channels of a subscription. */
  datatype Channel = Events | Errors

  /** How often a channel has been closed. */
  function Closed(sub: Sub, ch: Channel): nat {
    if ch.Events? then sub.eventCloses else sub.errorCloses
  }

  /** The step closes this channel of subscription s. */
  predicate Closes(x: System, a: Step, s: nat, ch: Channel) {
    a.Go? && if ch.Events? then At(x, a.t).CloseEvents? && At(x, a.t).s == s
             else At(x, a.t).CloseErrors? && At(x, a.t).s == s
  }

  /** The channel a thread's next step sends on. */
  function SendsOn(pc: PC): Option<Channel> {
    if pc.Sending? then Some(Events) else if pc.Reporting? then Some(Errors) else None
  }

  /** The subscription a thread is about to send to. */
  function Receiver(pc: PC): nat {
    if pc.Sending? then pc.s else if pc.Reporting? then pc.s else 0
  }

  /** Since thread t last moved, some other thread closed this channel of subscription s. */
  ghost predicate ClosedSince(steps: seq<Step>, t: nat, s: nat, ch: Channel)
    requires After(steps).Some?
    decreases |steps|
  {
    steps != [] && (
      var front, a := steps[..|steps| - 1], steps[|steps| - 1];
      a.t != t && (Closes(After(front).value, a, s, ch) || ClosedSince(front, t, s, ch))
    )
  }

  /** A thread about to send finds the channel closed exactly if it was closed since the thread's last step. */
  ghost predicate Tracked(steps: seq<Step>, t: nat)
    requires After(steps).Some?
  {
    var x := After(steps).value;
    var pc := At(x, t);
    SendsOn(pc).Some? && Receiver(pc) < |x.subs| ==>
      (Closed(x.subs[Receiver(pc)], SendsOn(pc).value) > 0 <==>
       ClosedSince(steps, t, Receiver(pc), SendsOn(pc).value))
  }

  /** Channels are closed by a closing step and by nothing else. */
  lemma OnlyClosing(x: System, a: Step, s: nat, ch: Channel)
    requires Sound(x) && Enabled(x, a) && s < |x.subs|
    ensures s < |Do(x, a).subs|
    ensures Closed(Do(x, a).subs[s], ch) > 0 <==> Closed(x.subs[s], ch) > 0 || Closes(x, a, s, ch)
  {
    assert SubSound(x, s);
    assert HoldsGuard(At(x, a.t), s) <==> x.subs[s].guard == Some(a.t);
  }

  /** A thread comes to a send after seeing the closed flag down or the event channel open: nothing is closed yet. */
  lemma FoundOpen(x: System, a: Step)
    requires Sound(x) && Enabled(x, a) && SendsOn(At(Do(x, a), a.t)).Some?
    ensures var s := Receiver(At(Do(x, a), a.t));
            s < |x.subs| && x.subs[s].eventCloses == 0 && x.subs[s].errorCloses == 0 && Do(x, a).subs == x.subs
  {
    assert PositionValid(x, At(x, a.t));
    assert SubSound(x, Receiver(At(Do(x, a), a.t)));
  }

  lemma TrackedStep(front: seq<Step>, a: Step, steps: seq<Step>, t: nat)
    requires steps == front + [a] && After(steps).Some?
    requires Tracked(front, t)
    ensures Tracked(steps, t)
  {
    assert steps[..|steps| - 1] == front;
    EveryScheduleSound(front);
    var x := After(front).value;
    var pc := At(Do(x, a), t);
    if SendsOn(pc).Some? {
      if t == a.t {
        FoundOpen(x, a);
      } else {
        OthersStay(x, a, t);
        assert PositionValid(x, pc);
        OnlyClosing(x, a, Receiver(pc), SendsOn(pc).value);
      }
    }
  }

  lemma {:induction false} EveryScheduleTracked(steps: seq<Step>, t: nat)
    requires After(steps).Some?
    ensures Tracked(steps, t)
    decreases |steps|
  {
    if steps != [] {
      var n := |steps| - 1;
      EveryScheduleTracked(steps[..n], t);
      TrackedStep(steps[..n], steps[n], steps, t);
    }
  }

  /**
   * A schedule has crashed the process if and only if its last step is a send, of an event or of an error,
   * on a channel that some other thread closed since the sender's step before.
   */
  lemma CrashesExactly(steps: seq<Step>)
    requires After(steps).Some?
    ensures After(steps).value.crashed <==>
              steps != [] && (
                var front, a := steps[..|steps| - 1], steps[|steps| - 1];
                var pc := At(After(front).value, a.t);
                a.Go? && SendsOn(pc).Some? && ClosedSince(front, a.t, Receiver(pc), SendsOn(pc).value))
  {
    if steps != [] {
      var front, a := steps[..|steps| - 1], steps[|steps| - 1];
      EveryScheduleTracked(front, a.t);
      EveryScheduleSound(front);
      CrashStep(After(front).value, a);
    }
  }

  lemma CrashStep(x: System, a: Step)
    requires Sound(x) && Enabled(x, a)
    ensures var pc := At(x, a.t);
            && (a.Go? && SendsOn(pc).Some? ==> Receiver(pc) < |x.subs|)
            && (Do(x, a).crashed <==>
                  a.Go? && SendsOn(pc).Some? && Closed(x.subs[Receiver(pc)], SendsOn(pc).value) > 0)
  {
    assert PositionValid(x, At(x, a.t));
  }

  /** In particular, a check and a send, or two sends, with nothing between them never crash. */
  lemma NextStepIsSafe(steps: seq<Step>, step: Step, next: Step)
    requires After(steps + [step, next]).Some? && step.t == next.t
    ensures !After(steps + [step, next]).value.crashed
  {
    var all := steps + [step, next];
    assert all[..|all| - 1] == steps + [step];
    CrashesExactly(all);
  }

  // ----- schedules that crash -----

  /** Thread t started something and took n steps. */
  function Steps(start: Step, t: nat, n: nat): seq<Step> {
    [start] + seq(n, k => Go(t, 0, false))
  }

  /** Thread 0 subscribes; thread 1 commits an update and gets as far as having checked the subscription. */
  function Checking(): seq<Step> {
    Steps(StartSubscribe(0), 0, 4) + Steps(StartCommit(1, 1), 1, 5)
  }

  /** Then thread 2, the context's goroutine, closes the event channel, and thread 1 sends on it. */
  function EventCrash(): seq<Step> {
    Checking() + Steps(StartClose(2, 0), 2, 5) + [Go(1, 0, false)]
  }

  /** Or thread 1 finds the event channel full, thread 2 closes both channels, and thread 1 reports the error. */
  function ErrorCrash(): seq<Step> {
    Checking() + [Go(1, 0, true)] + Steps(StartClose(2, 0), 2, 6) + [Go(1, 0, false)]
  }

  lemma Next(steps: seq<Step>, x: System, a: Step)
    requires After(steps) == Some(x) && Enabled(x, a)
    ensures After(steps + [a]) == Some(Do(x, a))
  {
    assert (steps + [a])[..|steps|] == steps;
  }

  /** The state after n steps of thread t. */
  function Gos(x: System, t: nat, n: nat): Option<System> {
    if n == 0 then Some(x)
    else
      var p := Gos(x, t, n - 1);
      if p.Some? && Enabled(p.value, Go(t, 0, false)) then Some(Do(p.value, Go(t, 0, false))) else None
  }

  lemma {:induction false} RunsOn(pre: seq<Step>, x: System, start: Step, t: nat, n: nat)
    requires After(pre) == Some(x) && Enabled(x, start) && Gos(Do(x, start), t, n).Some?
    ensures After(pre + Steps(start, t, n)) == Gos(Do(x, start), t, n)
  {
    if n == 0 {
      Next(pre, x, start);
      assert pre + [start] == pre + Steps(start, t, 0);
    } else {
      RunsOn(pre, x, start, t, n - 1);
      Next(pre + Steps(start, t, n - 1), Gos(Do(x, start), t, n - 1).value, Go(t, 0, false));
      assert pre + Steps(start, t, n - 1) + [Go(t, 0, false)] == pre + Steps(start, t, n);
    }
  }

  /** One step of thread t leads from y to z. */
  predicate Leads(y: System, t: nat, z: System) {
    Enabled(y, Go(t, 0, false)) && z == Do(y, Go(t, 0, false))
  }

  lemma FourGos(t: nat, x0: System, x1: System, x2: System, x3: System, x4: System)
    requires Leads(x0, t, x1) && Leads(x1, t, x2) && Leads(x2, t, x3) && Leads(x3, t, x4)
    ensures Gos(x0, t, 4) == Some(x4)
  {
    assert Gos(x0, t, 0) == Some(x0);
    assert Gos(x0, t, 1) == Some(x1);
    assert Gos(x0, t, 2) == Some(x2);
    assert Gos(x0, t, 3) == Some(x3);
  }

  lemma OneMore(t: nat, x: System, n: nat, y: System, z: System)
    requires Gos(x, t, n) == Some(y) && Leads(y, t, z)
    ensures Gos(x, t, n + 1) == Some(z)
  {
  }

  const Open := Sub(true, false, false, None, true, 0, 0)

  function Subscriber(pc: PC, affiliates: Option<nat>, subscribers: Option<nat>, sub: Sub): System {
    System(map[0 := pc], affiliates, subscribers, [sub], false)
  }

  lemma Subscribes()
    ensures Gos(Do(Initial, StartSubscribe(0)), 0, 4) == Some(Subscriber(Idle, None, None, Open))
  {
    var made := Open.(published := false, listed := false);
    var x0 := Subscriber(SubWantsAffiliates(0), None, None, made);
    var x1 := Subscriber(SubHoldsAffiliates(0), Some(0), None, made);
    var x2 := Subscriber(SubHoldsBoth(0), Some(0), Some(0), made);
    var x3 := Subscriber(SubLeaving(0), Some(0), None, Open);
    assert Do(Initial, StartSubscribe(0)) == x0;
    LeadsLocking(made);
    LeadsListing(made);
    FourGos(0, x0, x1, x2, x3, Subscriber(Idle, None, None, Open));
  }

  lemma LeadsLocking(made: Sub)
    requires made == Open.(published := false, listed := false)
    ensures Leads(Subscriber(SubWantsAffiliates(0), None, None, made), 0,
                  Subscriber(SubHoldsAffiliates(0), Some(0), None, made))
    ensures Leads(Subscriber(SubHoldsAffiliates(0), Some(0), None, made), 0,
                  Subscriber(SubHoldsBoth(0), Some(0), Some(0), made))
  {
  }

  lemma LeadsListing(made: Sub)
    requires made == Open.(published := false, listed := false)
    ensures Leads(Subscriber(SubHoldsBoth(0), Some(0), Some(0), made), 0,
                  Subscriber(SubLeaving(0), Some(0), None, Open))
    ensures Leads(Subscriber(SubLeaving(0), Some(0), None, Open), 0, Subscriber(Idle, None, None, Open))
  {
  }

  function Committer(pc: PC, affiliates: Option<nat>, subscribers: Option<nat>): System {
    System(map[0 := Idle, 1 := pc], affiliates, subscribers, [Open], false)
  }

  lemma Checks()
    ensures Gos(Do(Subscriber(Idle, None, None, Open), StartCommit(1, 1)), 1, 5) ==
              Some(Committer(Sending(0, 1, {}), None, None))
  {
    LeadsCommitter();
    LeadsNotifier();
    var x0 := Committer(WantAffiliates(1), None, None);
    var x4 := Committer(Telling(1, {0}), None, None);
    FourGos(1, x0, Committer(InAffiliates(1), Some(1), None), Committer(WantSubscribers(1), None, None),
            Committer(InSubscribers(1), None, Some(1)), x4);
    OneMore(1, x0, 4, x4, Committer(Sending(0, 1, {}), None, None));
  }

  lemma LeadsCommitter()
    ensures Do(Subscriber(Idle, None, None, Open), StartCommit(1, 1)) == Committer(WantAffiliates(1), None, None)
    ensures Leads(Committer(WantAffiliates(1), None, None), 1, Committer(InAffiliates(1), Some(1), None))
    ensures Leads(Committer(InAffiliates(1), Some(1), None), 1, Committer(WantSubscribers(1), None, None))
  {
  }

  lemma LeadsNotifier()
    ensures Leads(Committer(WantSubscribers(1), None, None), 1, Committer(InSubscribers(1), None, Some(1)))
    ensures Leads(Committer(InSubscribers(1), None, Some(1)), 1, Committer(Telling(1, {0}), None, None))
    ensures Leads(Committer(Telling(1, {0}), None, None), 1, Committer(Sending(0, 1, {}), None, None))
  {
    assert Listed(Committer(InSubscribers(1), None, Some(1))) == {0};
    assert {0} - {0} == {};
  }

  lemma ChecksIt()
    ensures After(Checking()) == Some(Committer(Sending(0, 1, {}), None, None))
  {
    var s1 := Steps(StartSubscribe(0), 0, 4);
    Subscribes();
    RunsOn([], Initial, StartSubscribe(0), 0, 4);
    assert [] + s1 == s1;
    Checks();
    RunsOn(s1, Subscriber(Idle, None, None, Open), StartCommit(1, 1), 1, 5);
  }

  /** Thread 1 stands at a send while thread 2 closes. */
  function Closer(sender: PC, pc: PC, subscribers: Option<nat>, sub: Sub): System {
    System(map[0 := Idle, 1 := sender, 2 := pc], None, subscribers, [sub], false)
  }

  const Guarded := Open.(guard := Some(2))
  const Flagged := Guarded.(closed := true)
  const Unlisted := Flagged.(listed := false)

  lemma ClosesIt(sender: PC)
    ensures Gos(Do(Committer(sender, None, None), StartClose(2, 0)), 2, 5) ==
              Some(Closer(sender, CloseErrors(0, true, Done), None, Unlisted.(eventCloses := 1)))
    ensures Gos(Do(Committer(sender, None, None), StartClose(2, 0)), 2, 6) ==
              Some(Closer(sender, LeaveOnce(0, Done), None, Unlisted.(eventCloses := 1, errorCloses := 1)))
  {
    LeadsGuard(sender);
    LeadsUnlist(sender);
    LeadsClose(sender);
    var x0 := Closer(sender, WantOnce(0, Done), None, Open);
    var x4 := Closer(sender, CloseEvents(0, true, Done), None, Unlisted);
    var x5 := Closer(sender, CloseErrors(0, true, Done), None, Unlisted.(eventCloses := 1));
    FourGos(2, x0, Closer(sender, InOnce(0, Done), None, Guarded), Closer(sender, CloseWants(0, Done), None, Flagged),
            Closer(sender, CloseHolds(0, Done), Some(2), Flagged), x4);
    OneMore(2, x0, 4, x4, x5);
    OneMore(2, x0, 5, x5, Closer(sender, LeaveOnce(0, Done), None, Unlisted.(eventCloses := 1, errorCloses := 1)));
  }

  lemma LeadsGuard(sender: PC)
    ensures Enabled(Committer(sender, None, None), StartClose(2, 0))
    ensures Do(Committer(sender, None, None), StartClose(2, 0)) == Closer(sender, WantOnce(0, Done), None, Open)
    ensures Leads(Closer(sender, WantOnce(0, Done), None, Open), 2, Closer(sender, InOnce(0, Done), None, Guarded))
    ensures Leads(Closer(sender, InOnce(0, Done), None, Guarded), 2,
                  Closer(sender, CloseWants(0, Done), None, Flagged))
  {
  }

  lemma LeadsUnlist(sender: PC)
    ensures Leads(Closer(sender, CloseWants(0, Done), None, Flagged), 2,
                  Closer(sender, CloseHolds(0, Done), Some(2), Flagged))
    ensures Leads(Closer(sender, CloseHolds(0, Done), Some(2), Flagged), 2,
                  Closer(sender, CloseEvents(0, true, Done), None, Unlisted))
  {
  }

  lemma LeadsClose(sender: PC)
    ensures Leads(Closer(sender, CloseEvents(0, true, Done), None, Unlisted), 2,
                  Closer(sender, CloseErrors(0, true, Done), None, Unlisted.(eventCloses := 1)))
    ensures Leads(Closer(sender, CloseErrors(0, true, Done), None, Unlisted.(eventCloses := 1)), 2,
                  Closer(sender, LeaveOnce(0, Done), None, Unlisted.(eventCloses := 1, errorCloses := 1)))
  {
  }

  /** A close between the check and the send: the event is sent on a closed channel. */
  lemma EventSendCrashes()
    ensures After(EventCrash()).Some? && After(EventCrash()).value.crashed
  {
    ChecksIt();
    ClosesIt(Sending(0, 1, {}));
    RunsOn(Checking(), Committer(Sending(0, 1, {}), None, None), StartClose(2, 0), 2, 5);
    Next(Checking() + Steps(StartClose(2, 0), 2, 5),
         Closer(Sending(0, 1, {}), CloseErrors(0, true, Done), None, Unlisted.(eventCloses := 1)), Go(1, 0, false));
  }

  /** A close between the two sends: the error is sent on a closed channel. */
  lemma ErrorSendCrashes()
    ensures After(ErrorCrash()).Some? && After(ErrorCrash()).value.crashed
  {
    var sender := Reporting(0, 1, {});
    var full := Checking() + [Go(1, 0, true)];
    FindsFull();
    ClosesIt(sender);
    RunsOn(full, Committer(sender, None, None), StartClose(2, 0), 2, 6);
    Next(full + Steps(StartClose(2, 0), 2, 6),
         Closer(sender, LeaveOnce(0, Done), None, Unlisted.(eventCloses := 1, errorCloses := 1)), Go(1, 0, false));
  }

  lemma FindsFull()
    ensures After(Checking() + [Go(1, 0, true)]) == Some(Committer(Reporting(0, 1, {}), None, None))
  {
    ChecksIt();
    Next(Checking(), Committer(Sending(0, 1, {}), None, None), Go(1, 0, true));
    assert Do(Committer(Sending(0, 1, {}), None, None), Go(1, 0, true)) == Committer(Reporting(0, 1, {}), None, None);
  }
}
