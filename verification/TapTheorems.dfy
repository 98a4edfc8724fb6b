/** The controller's guarantees: on every iteration from a reachable state, and
    over whole runs of iterations and requests in any order. */
module TapTheorems {
  import opened Clock
  import opened TapTypes
  import opened PourControl
  import opened TapController
  import opened TapSafety
  import Gesture = ButtonGesture
  import Rec = PourRecorder

  /** The action this iteration carries out, if any. */
  function Accepted(k: Tap, e: Env): seq<Action> {
    var c, ev := k.Checked(e), k.ButtonEvent(e);
    var a := c.Pending(ev, k.Pouring(), k.Stops(e));
    if c.Got(ev, k.Pouring(), k.Stops(e)) && !k.Stops(e) && c.Accepts(e, a) then [a] else []
  }

  /** How the pour machine moves in one iteration. */
  ghost predicate ControlMoves(k: Tap, e: Env, n: Tap) {
    if n.control.pouring && !k.control.pouring then
      exists half: bool ::
        var looked := k.Look(e).control;
        && !k.hold.pouring
        && TargetReady(k.settings, looked, e.sample, e.Now(), k.Target(half))
        && n.selected == k.settings.ForTarget(k.Target(half))
        && n.control == looked.Start(n.selected, e.Now()).(reason := n.control.reason)
    else if k.hold.pouring then n.control.count == 0
    else Rests(k.Look(e).control, n.control)
  }

  /** Everything the theorems need to know about the state `n` an iteration from
      `k` settles in. */
  ghost predicate Settles(k: Tap, e: Env, n: Tap) {
    && Sound(n) && SameData(k, n) && ControlMoves(k, e, n)
    && (n.web ==> n.Active()) && n.testActive == (n.deadline != 0) && n.stopArmed == n.Active()
    && !n.stopRequested && (k.Stops(e) ==> !n.Active() && n.queue == [] && n.button.blocked)
    && (k.Stops(e) && StopSite in e.pwmOk ==> n.servo == k.settings.closedUs)
    && (!n.Active() && k.settings.servoCalibrated && SettleSite in e.pwmOk ==> n.servo == k.settings.closedUs)
    && (n.Pouring() && !k.Pouring() ==> !k.SavingRead(e, 2))
    && (n.hold.pouring && !k.hold.pouring ==> !e.lockHold && !k.Active() && n.hold.started == e.Now())
    && (n.hold.pouring ==> Elapsed(e.Now(), n.hold.started) < k.settings.maxPourMs)
    && (n.Active() && Accepted(k, e) != [] ==>
          n.web == Accepted(k, e)[0].fromWeb && Accepted(k, e)[0].kind != Close && !n.hold.pouring)
    && (n.Active() && Accepted(k, e) == [] ==> n.web == k.web && (k.Active() || n.hold.pouring))
    && (n.deadline != 0 && Accepted(k, e) != [] ==>
          Accepted(k, e)[0].kind == Test && (ActionSite in e.pwmOk ==> n.servo == Accepted(k, e)[0].pulse))
    && (n.deadline != 0 && Accepted(k, e) == [] ==>
          n.deadline == k.deadline && n.servo == k.servo && !n.DeadlinePassed(e))
  }

  /** The state after stops and deadlines have been checked. */
  ghost predicate Watched(k: Tap, e: Env, c: Tap) {
    && Sound(c) && SameData(k, c) && NothingStarted(k, c)
    && (if k.hold.pouring then c.control.count == 0 && !c.control.pouring else Rests(k.Look(e).control, c.control))
    && (c.hold.pouring ==> Elapsed(e.Now(), c.hold.started) < k.settings.maxPourMs)
    && !c.stopRequested && (k.Stops(e) ==> !c.Active() && c.queue == [] && c.button.blocked)
    && (k.Stops(e) && StopSite in e.pwmOk ==> c.servo == k.settings.closedUs)
    && (k.ButtonEvent(e).longPress ==> !k.Active() && !c.web && !c.button.Live() && !c.Active())
    && (c.Active() ==> k.Active()) && c.web == k.web
    && (k.control.pouring && !c.control.pouring ==> c.control.count == 0)
    && (c.deadline != 0 ==> c.servo == k.servo && !c.DeadlinePassed(e))
  }

  lemma ChecksSettle(k: Tap, e: Env)
    requires Inv(k)
    ensures Watched(k, e, k.Checked(e))
  {
    hide Tap.PollButton, Tap.Supervise, Tap.Check, Tap.Look, Tap.Stops;
    PollKeeps(k, e);
    var polled := k.PollButton(e);
    SuperviseKeeps(polled, e);
    LookCalms(polled, e);
    SameLook(k, polled, e);
    CheckKeeps(polled.Supervise(e, k.hold.pouring), e, k.Pouring(), k.LockStops(e), k.Stops(e));
  }

  lemma IterationSettles(k: Tap, e: Env)
    requires Inv(k)
    ensures Settles(k, e, k.Settled(e))
  {
    hide Tap.PollButton, Tap.Checked, Tap.Act, Tap.HoldFill, Tap.Settle, Tap.Accepts, Tap.Stops,
         ControlMoves, Settles, SettleDone;
    ChecksSettle(k, e);
    var c, was, ev, stop := k.Checked(e), k.Pouring(), k.ButtonEvent(e), k.Stops(e);
    var got := c.Got(ev, was, stop);
    ActKeeps(c, e, ev, was, stop);
    var acted := c.Act(e, ev, was, stop);
    HoldKeeps(acted, e, ev, stop, got);
    var held := acted.HoldFill(e, ev, stop, got);
    SettleKeeps(held, e);
    ControlSettles(k, e, c, acted, held, k.Settled(e));
    FrameSettles(k, e, c, acted, held, k.Settled(e));
    FlagsSettle(k, e, c, acted, held, k.Settled(e));
  }

  /** Putting the phases together: `c` after the checks, `acted` after the action,
      `held` after the long press, `n` at the end. */
  ghost predicate Phases(k: Tap, e: Env, c: Tap, acted: Tap, held: Tap, n: Tap) {
    && Watched(k, e, c)
    && (var a := c.Pending(k.ButtonEvent(e), k.Pouring(), k.Stops(e));
        ActDone(c, e, Accepted(k, e) != [], a, acted) && (Accepted(k, e) != [] ==> Accepted(k, e) == [a]))
    && (k.Stops(e) ==> Accepted(k, e) == [])
    && (if Accepted(k, e) != [] || k.Stops(e) || !k.ButtonEvent(e).longPress then held == acted
        else HoldDone(acted, e, held))
    && SettleDone(held, e, n)
  }

  lemma ControlSettles(k: Tap, e: Env, c: Tap, acted: Tap, held: Tap, n: Tap)
    requires Inv(k) && Phases(k, e, c, acted, held, n)
    ensures ControlMoves(k, e, n)
  {
    hide Tap.Accepts, Tap.Stops, Tap.Look, Tap.ButtonEvent, Tap.Active, Accepted, Sound, StartedFrom;
    hide Rests;
    RestsAre(acted.control, held.control);
    RestsAre(held.control, n.control);
    RestsChain(acted.control, held.control, n.control);
    if acted.control.pouring && Accepted(k, e) != [] {
      PourStarts(k, e, c.Taken(), acted, n);
    } else {
      RestsAre(c.control, acted.control);
      RestsChain(c.control, acted.control, n.control);
      RestsAre(c.control, n.control);
      RestsChain(k.Look(e).control, c.control, n.control);
    }
  }

  lemma RestsChain(a: ControlState, b: ControlState, c: ControlState)
    ensures Rests(a, a)
    ensures Rests(a, b) && Rests(b, c) ==> Rests(a, c)
  {
  }

  lemma RestsAre(s: ControlState, next: ControlState)
    ensures Rests(s, s)
    ensures Rests(s, next) ==> (next.pouring ==> s.pouring) && (s.count == 0 ==> next.count == 0)
  {
  }

  lemma PourStarts(k: Tap, e: Env, c: Tap, acted: Tap, n: Tap)
    requires if k.hold.pouring then c.control.count == 0 else Rests(k.Look(e).control, c.control)
    requires k.control.pouring ==> c.control.pouring || c.control.count == 0
    requires !c.Pouring() && c.settings == k.settings && c.half == k.half && StartedFrom(c, e, acted)
    requires Rests(acted.control, n.control) && (n.control.pouring ==> n.selected == acted.selected)
    ensures ControlMoves(k, e, n)
  {
    hide Tap.Look, TargetReady;
    var looked := k.Look(e).control;
    assert c.control.count >= 5;
    ReadinessOutlastsMessages(c, e, looked, acted);
    var half: bool :|
      && TargetReady(c.settings, looked, e.sample, e.Now(), c.Target(half))
      && acted.selected == c.settings.ForTarget(c.Target(half))
      && acted.control == looked.Start(acted.selected, e.Now()).(reason := acted.control.reason);
    if n.control.pouring {
      assert k.Target(half) == c.Target(half);
      assert n.control == looked.Start(n.selected, e.Now()).(reason := n.control.reason);
    }
  }

  lemma FrameSettles(k: Tap, e: Env, c: Tap, acted: Tap, held: Tap, n: Tap)
    requires Inv(k) && Phases(k, e, c, acted, held, n)
    ensures Sound(n) && SameData(k, n)
  {
    hide Tap.Accepts, Tap.Stops, Tap.Look, Tap.ButtonEvent, Accepted, StartedFrom;
  }

  lemma FlagsSettle(k: Tap, e: Env, c: Tap, acted: Tap, held: Tap, n: Tap)
    requires Inv(k) && Phases(k, e, c, acted, held, n)
    requires Sound(n) && SameData(k, n) && ControlMoves(k, e, n)
    ensures Settles(k, e, n)
  {
    hide Tap.Accepts, Tap.Stops, Tap.Look, Tap.ButtonEvent, Accepted, ControlMoves, StartedFrom, Settings.Valid, Rests;
    RestsAre(acted.control, held.control);
    RestsAre(held.control, n.control);
    assert k.settings.maxPourMs > 0 by { LimitIsPositive(k.settings); }
  }

  lemma LimitIsPositive(c: Settings)
    requires c.Valid()
    ensures c.maxPourMs > 0
  {
  }

  lemma SameLook(k: Tap, polled: Tap, e: Env)
    requires polled == k.(button := polled.button)
    ensures polled.Look(e).control == k.Look(e).control
  {
  }

  // ------------------------------------------------------------ reachability

  /** A freshly booted controller: valid settings, and the servo closed when it
      is calibrated and the write works. */
  datatype Boot = Boot(c: Settings, half: int, high: bool, now: uint32, available: bool, pwmOk: bool)
  {
    predicate Valid() { c.Valid() && c.ValidHalfTarget(half) }

    function State(): Tap {
      var b := BootState(c, half, high, now, available);
      if c.servoCalibrated then b.SetServo(c.closedUs, pwmOk) else b
    }
  }

  function After(k: Tap, events: seq<Event>): Tap {
    if events == [] then k else After(k, events[..|events| - 1]).Apply(events[|events| - 1])
  }

  /** The state after the first `i` events. */
  function At(k: Tap, events: seq<Event>, i: nat): Tap
    requires i <= |events|
  {
    After(k, events[..i])
  }

  lemma {:induction false} AtPrefix(k: Tap, events: seq<Event>, n: nat)
    requires n <= |events|
    ensures forall i :: 0 <= i <= n ==> At(k, events[..n], i) == At(k, events, i)
    ensures n < |events| ==> At(k, events, n + 1) == At(k, events, n).Apply(events[n])
    ensures At(k, events, |events|) == After(k, events)
  {
    hide Tap.Apply;
    forall i | 0 <= i <= n
      ensures At(k, events[..n], i) == At(k, events, i)
    {
      assert events[..n][..i] == events[..i];
    }
    if n < |events| {
      assert events[..n + 1][..n] == events[..n];
    }
    assert events[..|events|] == events;
  }

  ghost predicate Reachable(k: Tap) {
    exists boot: Boot, events: seq<Event> :: boot.Valid() && k == After(boot.State(), events)
  }

  lemma BootIsSafe(boot: Boot)
    requires boot.Valid()
    ensures Inv(boot.State())
  {
  }

  /** The recorder follows the pour: it is never told of a pour while a save is
      pending, because no pour is started then. */
  lemma RecordKeeps(r: Rec.RecorderState, was: bool, o: Rec.Observation)
    requires Recording(r, was) && (o.pouring && !was ==> !r.saving)
    ensures Recording(r.Observe(o), o.pouring)
    ensures r.available ==> ((!r.saving && r.Observe(o).saving) <==> (was && !o.pouring))
  {
  }

  lemma StepKeeps(k: Tap, e: Env)
    requires Inv(k)
    ensures Inv(k.Step(e))
  {
    hide Tap.Settled, Tap.Supervise, Tap.CloseForUpdate, Gesture.ButtonState.Update, Rec.RecorderState.Observe, ControlMoves, Accepted;
    if k.updating {
      UpdateKeeps(k, e);
    } else {
      IterationSettles(k, e);
      var n := k.Settled(e);
      var o := n.Observation(e, k.ButtonEvent(e), k.Pouring(), k.hold.pouring);
      RecordKeeps(n.WriterSeen(e).recorder, k.Pouring(), o);
    }
  }

  lemma UpdateKeeps(k: Tap, e: Env)
    requires Inv(k) && k.updating
    ensures var next := k.PollButton(e).Supervise(e, k.hold.pouring).CloseForUpdate(e);
            && Inv(next) && !next.Active() && next.settings == k.settings
            && (UpdateSite in e.pwmOk ==> next.servo == k.settings.closedUs)
            && next.updateClosed == (next.servo == k.settings.closedUs)
  {
    hide Tap.PollButton, Tap.Supervise, Tap.CancelButton, Tap.StopBoth, Tap.SetServo;
    PollKeeps(k, e);
    SuperviseKeeps(k.PollButton(e), e);
    var s := k.PollButton(e).Supervise(e, k.hold.pouring);
    CancelCalms(s);
    StopBothCalms(s.CancelButton(), Update);
    var stopped := s.CancelButton().StopBoth(Update).ForUpdate();
    ServoMovesIdle(stopped, stopped.settings.closedUs, UpdateSite in e.pwmOk);
  }

  lemma ApplyKeeps(k: Tap, event: Event)
    requires Inv(k)
    ensures Inv(k.Apply(event))
  {
    hide Tap.Step;
    match event
    case Iterate(e) => StepKeeps(k, e);
    case _ =>
  }

  lemma {:induction false} RunIsSafe(boot: Boot, events: seq<Event>)
    requires boot.Valid()
    ensures Inv(After(boot.State(), events))
    decreases |events|
  {
    if events == [] {
      BootIsSafe(boot);
    } else {
      var init := events[..|events| - 1];
      RunIsSafe(boot, init);
      ApplyKeeps(After(boot.State(), init), events[|events| - 1]);
    }
  }

  lemma ReachableIsSafe(k: Tap)
    requires Reachable(k)
    ensures Inv(k)
  {
    var boot: Boot, events: seq<Event> :| boot.Valid() && k == After(boot.State(), events);
    RunIsSafe(boot, events);
  }
}
