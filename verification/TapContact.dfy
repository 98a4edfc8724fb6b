/** The button contact and the last sample over one iteration: exactly when a contact is
    cancelled until its release, and that every sample is looked at once. */
module TapContact {
  import opened Clock
  import opened TapTypes
  import opened PourControl
  import opened TapController
  import opened TapSafety
  import opened TapTheorems
  import opened TapModes
  import Gesture = ButtonGesture
  import Rec = PourRecorder

  /** What an iteration cancels the contact for. */
  predicate Cancels(k: Tap, e: Env) {
    || k.updating || Stopped(k, e) || e.lockCancel
    || (ModeOf(k).Hold? && !GoesOn(k, e))
    || (Accepted(k, e) != [] && Uses(k, e, Accepted(k, e)[0]))
    || (Contact(k, e).longPress && k.queue == [] && !HoldAllowed(k, e))
  }

  /** An action that is carried out ends the contact, a rejected start does not. */
  predicate Uses(k: Tap, e: Env, a: Action) {
    a.kind == Close || a.kind == Test || (ModeOf(k).Idle? && CupReady(k, e, a))
  }

  predicate HoldAllowed(k: Tap, e: Env) {
    !e.lockHold && !e.setupHold && !(k.recorder.saving && e.writerAt > 2) && k.settings.servoCalibrated
  }

  function CancelIf(b: Gesture.ButtonState, cancel: bool): Gesture.ButtonState { b.(blocked := b.blocked || cancel) }

  /** Nothing about the contact and the last sample has changed but a cancelling. */
  predicate Touches(k: Tap, n: Tap, cancel: bool) {
    n.button == CancelIf(k.button, cancel) && n.control.seen == k.control.seen
  }

  lemma TouchesJoin(a: Tap, b: Tap, c: Tap, p: bool, q: bool)
    requires Touches(a, b, p) && Touches(b, c, q)
    ensures Touches(a, c, p || q)
  {
  }

  lemma StopBothTouches(t: Tap, why: Reason)
    ensures Touches(t, t.StopBoth(why), false) && Touches(t, t.StopControl(why), false) && Touches(t, t.StopHold(why), false)
    ensures Touches(t, t.CancelButton(), true)
  {
  }

  lemma ServoTouches(t: Tap, us: int, ok: bool)
    ensures Touches(t, t.SetServo(us, ok), false)
  {
    hide Tap.StopBoth;
    StopBothTouches(t, PwmFailure);
  }

  lemma SuperviseTouches(k: Tap, e: Env)
    requires Sound(k)
    ensures var s := k.Supervise(e, k.hold.pouring);
            && s.button == CancelIf(k.button, k.hold.pouring && !s.hold.pouring)
            && (!k.Pouring() ==> s.control.seen == e.sample.sequence)
  {
    hide Tap.Supervise, Tap.Look;
    LookIs(k, e);
    if k.hold.pouring {
      HoldSupervised(k, e);
    } else {
      OtherSupervised(k, e);
    }
  }

  lemma OtherSupervised(k: Tap, e: Env)
    requires !k.hold.pouring
    ensures k.Supervise(e, false) == k.Look(e)
  {
    hide ControlState.Update;
  }

  lemma HoldSupervised(k: Tap, e: Env)
    requires k.hold.pouring
    ensures var s := k.Supervise(e, true); s.button == CancelIf(k.button, !s.hold.pouring)
  {
    hide Tap.StopBoth, Tap.StopControl, Tap.StopHold, Tap.Look, Tap.CancelButton;
    StopsAre(k, ButtonReleased);
    var freed := k.StopBoth(ButtonReleased).CancelButton();
    LookIs(freed, e);
    CancelIs(k.StopBoth(ButtonReleased));
    var looked := if e.high then freed.Look(e) else k;
    StopsAre(looked, MaximumTime);
    var timed := if looked.hold.pouring && Elapsed(e.Now(), looked.hold.started) >= looked.settings.maxPourMs
                 then looked.StopHold(MaximumTime) else looked;
    StopsAre(timed, timed.hold.reason);
    CancelIs(timed.StopControl(timed.hold.reason));
  }

  lemma LookIs(k: Tap, e: Env)
    ensures k.Look(e) == k.(control := k.Look(e).control)
    ensures !k.control.pouring ==> k.Look(e).control.seen == e.sample.sequence
  {
    hide ControlState.Update;
    IdleLookSees(k.control, k.settings, e.sample, e.Now());
  }

  lemma StopsAre(k: Tap, why: Reason)
    ensures k.StopControl(why) == k.(control := k.StopControl(why).control)
    ensures k.StopHold(why) == k.(hold := k.StopHold(why).hold) && !k.StopHold(why).hold.pouring
    ensures k.StopBoth(why) == k.(control := k.StopBoth(why).control, hold := k.StopBoth(why).hold)
    ensures !k.StopBoth(why).hold.pouring
  {
    hide ControlState.Stop;
    StopKeeps(k.hold, why);
  }

  lemma CancelIs(k: Tap)
    ensures k.CancelButton() == k.(button := CancelIf(k.button, true))
  {
  }

  lemma IdleLookSees(s: ControlState, c: Settings, x: Sample, now: uint32)
    ensures !s.pouring ==> s.Update(c, x, now).seen == x.sequence
  {
  }

  lemma HaltTouches(s: Tap, e: Env, was: bool, lockStop: bool, stop: bool)
    ensures Touches(s, s.Halt(e, was, lockStop, stop), e.lockCancel || stop)
  {
    hide Tap.HaltNow;
    var t := s.StopTaken(e);
    assert Touches(s, t, e.lockCancel);
    HaltNowTouches(t, e, if lockStop then TapLocked else if was || t.deadline != 0 then EmergencyStop else TapClosed);
  }

  lemma HaltNowTouches(t: Tap, e: Env, why: Reason)
    ensures Touches(t, t.HaltNow(e, why), true)
  {
    hide Tap.SetServo, Tap.StopBoth, Tap.CancelButton, Touches, CancelIf;
    var a := t.CancelButton();
    var b := a.StopBoth(why);
    StopBothTouches(t, why);
    StopBothTouches(a, why);
    TouchesJoin(t, a, b, true, false);
    Untouched(b, b.DropRequests());
    TouchesJoin(t, b, b.DropRequests(), true, false);
    var d := b.DropRequests();
    ServoTouches(d, d.settings.closedUs, StopSite in e.pwmOk);
    TouchesJoin(t, d, t.HaltNow(e, why), true, false);
  }

  lemma Untouched(t: Tap, n: Tap)
    requires n.button == t.button && n.control.seen == t.control.seen
    ensures Touches(t, n, false)
  {
  }

  lemma FinishTouches(h: Tap, e: Env, was: bool)
    ensures Touches(h, h.Finish(e, was), false)
  {
    hide Tap.SetServo, Tap.StopControl, Touches;
    var f := h.EndPour(e, was);
    Untouched(h, h);
    ServoTouches(h, h.settings.closedUs, EndSite in e.pwmOk);
    Untouched(f, f);
    if f.DeadlinePassed(e) {
      var shut := f.CloseServo(DeadlineSite in e.pwmOk);
      ServoTouches(f, f.settings.closedUs, DeadlineSite in e.pwmOk);
      Untouched(shut, shut.ClearDeadline());
      StopBothTouches(shut.ClearDeadline(), TestCompleted);
      TouchesJoin(f, shut, shut.ClearDeadline(), false, false);
      TouchesJoin(f, shut.ClearDeadline(), f.ExpireTest(e), false, false);
    }
    TouchesJoin(h, f, h.Finish(e, was), false, false);
  }

  lemma CheckTouches(k: Tap, e: Env)
    requires Inv(k)
    ensures var c, b := k.Checked(e), k.button.Update(e.high, e.Now(), k.Busy(e));
            && c.button == CancelIf(b, Stopped(k, e) || e.lockCancel || (ModeOf(k).Hold? && !GoesOn(k, e)))
            && (!k.Pouring() ==> c.control.seen == e.sample.sequence)
  {
    hide ControlState.Update, Tap.Supervise, Tap.Finish, Tap.Halt, Tap.Stops, Stopped, Gesture.ButtonState.Update, Settings.Valid;
    PollKeeps(k, e);
    ContactIsButton(k, e);
    var p := k.PollButton(e);
    SuperviseTouches(p, e);
    SuperviseExactly(p, e);
    var s := p.Supervise(e, k.hold.pouring);
    HaltTouches(s, e, k.Pouring(), k.LockStops(e), k.Stops(e));
    var h := s.Halt(e, k.Pouring(), k.LockStops(e), k.Stops(e));
    FinishTouches(h, e, k.Pouring());
  }

  lemma CloseTouches(c: Tap, e: Env)
    ensures Touches(c, c.CloseAction(e), true)
  {
    hide Tap.SetServo, Tap.StopBoth, Tap.CancelButton, Touches;
    var a := c.CancelButton();
    var b := a.StopBoth(ManualClose);
    StopBothTouches(c, ManualClose);
    StopBothTouches(a, ManualClose);
    TouchesJoin(c, a, b, true, false);
    Untouched(b, b.ClearDeadline());
    TouchesJoin(c, b, b.ClearDeadline(), true, false);
    var d := b.ClearDeadline();
    ServoTouches(d, d.settings.closedUs, ActionSite in e.pwmOk);
    TouchesJoin(c, d, c.CloseAction(e), true, false);
  }

  lemma TestTouches(c: Tap, e: Env, a: Action)
    ensures Touches(c, c.TestAction(e, a), true)
  {
    hide Tap.SetServo, Touches;
    var ready := c.CancelButton().ForgetReadings(a.fromWeb);
    Cancelled(c, ready);
    ServoTouches(ready, a.pulse, ActionSite in e.pwmOk);
    var pulsed := ready.SetServo(a.pulse, ActionSite in e.pwmOk);
    TouchesJoin(c, ready, pulsed, true, false);
    Untouched(pulsed, c.TestAction(e, a));
    TouchesJoin(c, pulsed, c.TestAction(e, a), true, false);
  }

  lemma Cancelled(t: Tap, n: Tap)
    requires n.button == t.button.Cancel() && n.control.seen == t.control.seen
    ensures Touches(t, n, true)
  {
  }

  lemma StartTouches(c: Tap, e: Env, a: Action)
    requires a.kind == Start || a.kind == StartHalf
    ensures Touches(c, c.StartAction(e, a), Begins(c, e, a))
  {
    hide Tap.SetServo, Tap.Eligible, Touches, Begins, Tap.StartAction, Opening;
    if Begins(c, e, a) {
      var t := Opening(c, e, a);
      OpeningTouches(c, e, a);
      StartIs(c, e, a);
      ServoTouches(t, t.settings.openUs, ActionSite in e.pwmOk);
      TouchesJoin(c, t, c.StartAction(e, a), true, false);
    } else {
      RejectedTouches(c, e, a);
    }
  }

  lemma RejectedTouches(c: Tap, e: Env, a: Action)
    requires !Begins(c, e, a) && (a.kind == Start || a.kind == StartHalf)
    ensures Touches(c, c.StartAction(e, a), false)
  {
    hide Tap.SetServo, Tap.Eligible, Begins;
    EligibleExactly(c, e, a);
  }

  /** A start up to the opening of the servo. */
  function Opening(c: Tap, e: Env, a: Action): Tap {
    var half := a.kind == StartHalf;
    var k := c.StartControl(c.settings.ForTarget(c.Target(half)), e.Now());
    (if half then k.SetReason(HalfPour) else k).CancelButton().ForgetHold(a.fromWeb)
  }

  lemma StartIs(c: Tap, e: Env, a: Action)
    requires Begins(c, e, a) && (a.kind == Start || a.kind == StartHalf)
    ensures c.StartAction(e, a) == Opening(c, e, a).SetServo(c.settings.openUs, ActionSite in e.pwmOk)
    ensures Opening(c, e, a).settings == c.settings
  {
    hide Tap.SetServo, Tap.Eligible, Begins, ControlState.Ready, ControlState.ResetReady;
    EligibleExactly(c, e, a);
    BeginsReady(c, e, a);
    SameReady(c.control, c.settings, CutoffOf(c, a), e.Now());
  }

  lemma OpeningTouches(c: Tap, e: Env, a: Action)
    ensures Touches(c, Opening(c, e, a), true)
  {
  }

  lemma HoldTouches(c: Tap, e: Env, ev: Gesture.ButtonEvent, stop: bool, got: bool)
    ensures Touches(c, c.HoldFill(e, ev, stop, got), ev.longPress && !stop && !got && !c.HoldAccepted(e))
  {
    hide Tap.SetServo, Tap.StopBoth, Touches, Tap.HoldAccepted;
    Untouched(c, c);
    if ev.longPress && !stop && !got {
      if c.HoldAccepted(e) {
        var t := c.StartHold(e.Now()).StopControl(ManualFill);
        Untouched(c, t);
        ServoTouches(t, c.settings.openUs, HoldSite in e.pwmOk);
        TouchesJoin(c, t, c.HoldFill(e, ev, stop, got), false, false);
      } else {
        var b := c.StopBoth(ManualRejected);
        StopBothTouches(c, ManualRejected);
        StopBothTouches(b, ManualRejected);
        TouchesJoin(c, b, b.CancelButton(), false, true);
      }
    }
  }

  lemma SettleTouches(c: Tap, e: Env)
    ensures Touches(c, c.Settle(e), false)
  {
    hide Tap.SetServo, Touches;
    Untouched(c, c);
    ServoTouches(c, c.settings.closedUs, SettleSite in e.pwmOk);
    var r := if c.settings.servoCalibrated && !c.Active() then c.CloseServo(SettleSite in e.pwmOk) else c;
    Untouched(r, r.Flags());
    TouchesJoin(c, r, r.Flags(), false, false);
  }

  lemma ActTouches(k: Tap, e: Env)
    requires Inv(k)
    ensures var c, ran := k.Checked(e), Accepted(k, e);
            Touches(c, c.Act(e, k.ButtonEvent(e), k.Pouring(), k.Stops(e)), ran != [] && Uses(k, e, ran[0]))
  {
    hide ControlState.Update, Tap.Checked, Tap.Stops, Tap.ButtonEvent, Tap.Accepts, Tap.CloseAction, Tap.TestAction,
         Tap.StartAction, CupReady, Begins, Touches, Settings.Valid, CheckedTo;
    var c, ran := k.Checked(e), Accepted(k, e);
    var t := c.Taken();
    Untouched(c, t);
    TakenAccepts(c, e);
    if ran != [] {
      var a := ran[0];
      RanIs(k, e, a);
      CheckExactly(k, e);
      match a.kind
      case Close => CloseTouches(t, e); TouchesJoin(c, t, t.CloseAction(e), false, true);
      case Test => TestTouches(t, e, a); TouchesJoin(c, t, t.TestAction(e, a), false, true);
      case _ =>
        StartTouches(t, e, a);
        StartUses(k, e, a);
        TouchesJoin(c, t, t.StartAction(e, a), false, Begins(t, e, a));
    }
  }

  lemma StartUses(k: Tap, e: Env, a: Action)
    requires Inv(k) && !k.Stops(e) && Accepted(k, e) == [a] && (a.kind == Start || a.kind == StartHalf)
    ensures Begins(k.Checked(e).Taken(), e, a) <==> Uses(k, e, a)
  {
    hide ControlState.Update, Tap.Checked, Tap.Stops, Begins, CupReady, Settings.Valid;
    RanIs(k, e, a);
    CheckExactly(k, e);
    BeginsInTime(k, e, k.Checked(e).Taken(), a);
  }

  /** The contact, exactly: an iteration polls it, and cancels it until its release for a
      stop, the lock, a hold that ends, an update, an action that is carried out and a
      rejected long press, and for nothing else. */
  lemma ContactIsCancelledExactlyWhen(k: Tap, e: Env)
    requires Reachable(k)
    ensures var busy := ModeOf(k) != Idle || e.setupButton || e.lockButton || k.updating || (k.recorder.saving && e.writerAt > 0);
            k.Step(e).button == CancelIf(k.button.Update(e.high, e.Now(), busy), Cancels(k, e))
    ensures !k.Pouring() && !k.updating ==> k.Step(e).control.seen == e.sample.sequence
  {
    hide ControlState.Update, Tap.Checked, Tap.Stops, Tap.ButtonEvent, Tap.Act, Tap.HoldFill, Tap.Settle, Gesture.ButtonState.Update,
         Rec.RecorderState.Observe, Stopped, Contact, Accepted, Tap.Supervise, Tap.CloseForUpdate, GoesOn, Uses, Settings.Valid,
         Tap.HoldAccepted;
    ReachableIsSafe(k);
    ContactIsButton(k, e);
    if k.updating {
      UpdateTouches(k, e);
    } else {
      IterationTouches(k, e);
    }
  }

  lemma IterationTouches(k: Tap, e: Env)
    requires Inv(k) && !k.updating
    ensures k.Step(e).button == CancelIf(k.button.Update(e.high, e.Now(), k.Busy(e)), Cancels(k, e))
    ensures !k.Pouring() ==> k.Step(e).control.seen == e.sample.sequence
  {
    hide ControlState.Update, Tap.Checked, Tap.Stops, Tap.ButtonEvent, Tap.Act, Tap.HoldFill, Tap.Settle, Gesture.ButtonState.Update,
         Rec.RecorderState.Observe, Stopped, Contact, Accepted, GoesOn, Uses, Settings.Valid, Tap.HoldAccepted, Tap.Observation,
         HoldAllowed, Tap.Busy, Tap.Got, Tap.Step;
    StepIsSettled(k, e);
    ContactIsButton(k, e);
    CheckTouches(k, e);
    ActTouches(k, e);
    var c, ev, was, stop := k.Checked(e), k.ButtonEvent(e), k.Pouring(), k.Stops(e);
    var acted, got := c.Act(e, ev, was, stop), c.Got(ev, was, stop);
    HoldTouches(acted, e, ev, stop, got);
    RejectedHold(k, e);
    SettleTouches(acted.HoldFill(e, ev, stop, got), e);
  }

  lemma UpdateTouches(k: Tap, e: Env)
    requires Inv(k) && k.updating
    ensures k.Step(e).button == CancelIf(k.button.Update(e.high, e.Now(), k.Busy(e)), true)
  {
    hide ControlState.Update, Tap.Supervise, Gesture.ButtonState.Update, Tap.SetServo, Tap.StopBoth, Settings.Valid;
    PollKeeps(k, e);
    var p := k.PollButton(e);
    SuperviseTouches(p, e);
    var s := p.Supervise(e, k.hold.pouring);
    BothStop(s.CancelButton(), Update);
    var t := s.CancelButton().StopBoth(Update).ForUpdate();
    ServoOnly(t, t.settings.closedUs, UpdateSite in e.pwmOk);
  }

  /** A long press is rejected exactly when no manual fill is allowed. */
  lemma RejectedHold(k: Tap, e: Env)
    requires Inv(k)
    ensures var c, ev, was, stop := k.Checked(e), k.ButtonEvent(e), k.Pouring(), k.Stops(e);
            !stop ==>
              (ev.longPress && !c.Got(ev, was, stop) && !c.Act(e, ev, was, stop).HoldAccepted(e) <==>
                 Contact(k, e).longPress && k.queue == [] && !HoldAllowed(k, e))
  {
    hide ControlState.Update, Tap.Checked, Tap.Stops, Tap.ButtonEvent, Contact, Stopped, Accepted, Settings.Valid, GoesOn;
    ContactIsButton(k, e);
    if !k.Stops(e) {
      CheckExactly(k, e);
      ActExactly(k, e);
      AcceptedExactly(k, e);
      if k.ButtonEvent(e).shortPress {
        ShortPressIsIdle(k, e);
      }
      ChecksSettle(k, e);
    }
  }
}
