/** What every reachable state of the controller satisfies, and what one
    iteration from such a state does. */
module TapSafety {
  import opened Clock
  import opened TapTypes
  import opened PourControl
  import opened TapController
  import Gesture = ButtonGesture
  import Rec = PourRecorder

  /** The invariant of the controller between events. */
  ghost predicate Inv(k: Tap) {
    && Sound(k)
    && (k.web ==> k.Active())
    && k.testActive == (k.deadline != 0)
    && (k.updating ==> !k.Active())
    && Recording(k.recorder, k.Pouring())
  }

  /** The part of the invariant that holds at every point inside an iteration: at
      most one of automatic pour, manual hold and servo test is under way; a pour
      has the servo open and calibrated; while anything is under way the button
      contact cannot become a long press; the web flag is never set in a hold. */
  ghost predicate Sound(k: Tap) {
    && k.settings.Valid()
    && !(k.control.pouring && k.hold.pouring)
    && (k.deadline != 0 ==> !k.Pouring())
    && (k.Pouring() ==> k.servo == k.settings.openUs && k.settings.servoCalibrated)
    && (k.Active() ==> !k.button.Live())
    && (k.web ==> !k.hold.pouring)
    && (k.hold.pouring ==> k.control.count == 0)
  }

  /** Recording is on exactly during a pour, and never while a save is pending. */
  ghost predicate Recording(r: Rec.RecorderState, pouring: bool) {
    && (r.available ==> r.recording == pouring)
    && (!r.available ==> !r.recording && !r.saving)
    && (r.saving ==> !r.recording)
  }

  /** What no phase of an iteration changes before the history is told. */
  ghost predicate SameData(k: Tap, next: Tap) {
    && next.recorder == k.recorder && next.settings == k.settings && next.half == k.half
    && next.updating == k.updating && (next.stopRequested ==> k.stopRequested)
    && (k.control.pouring && next.control.pouring ==> next.selected == k.selected)
    && (k.hold.pouring && next.hold.pouring ==> next.hold.started == k.hold.started)
  }

  ghost predicate Frame(k: Tap, next: Tap) {
    SameData(k, next) && (next.button.Live() ==> k.button.Live())
  }

  /** The pour machine is left alone but for its message, or it is stopped. */
  ghost predicate Rests(s: ControlState, next: ControlState) {
    (next.count == 0 && !next.pouring) || next == s.(reason := next.reason)
  }

  /** `next` is under way only with what was under way in `k`. */
  ghost predicate NothingStarted(k: Tap, next: Tap) {
    && (next.control.pouring ==> k.control.pouring)
    && (next.hold.pouring ==> k.hold.pouring)
    && (next.deadline != 0 ==> next.deadline == k.deadline)
    && next.web == k.web
  }

  /** A contact that is down and not live, polled as busy, is still not live and
      does not fire; a long press always uses the contact up. */
  lemma BusyContactIsHarmless(b: Gesture.ButtonState, high: bool, now: uint32, busy: bool)
    ensures b.Event(high, now, busy).longPress ==> !b.Update(high, now, busy).Live()
    ensures busy && !b.Live() ==> !b.Event(high, now, busy).longPress && !b.Update(high, now, busy).Live()
  {
  }

  lemma PollKeeps(k: Tap, e: Env)
    requires Inv(k)
    ensures var next := k.PollButton(e);
            && Sound(next) && NothingStarted(k, next) && next.Pouring() == k.Pouring()
            && next == k.(button := next.button) && SameData(k, next)
    ensures k.ButtonEvent(e).longPress ==> !k.PollButton(e).button.Live() && !k.Active() && !k.web
  {
    hide Gesture.ButtonState.Update, Gesture.ButtonState.Event, Gesture.ButtonState.Live;
    BusyContactIsHarmless(k.button, e.high, e.Now(), k.Busy(e));
  }

  /** A look never starts a pour, and one that ends a pour forgets its readings. */
  lemma LookStartsNothing(s: ControlState, c: Settings, x: Sample, now: uint32)
    ensures s.Update(c, x, now).pouring ==> s.pouring
    ensures s.pouring && !s.Update(c, x, now).pouring ==> s.Update(c, x, now).count == 0
  {
  }

  /** `next` is sound and has nothing under way that `k` has not. */
  ghost predicate Calmer(k: Tap, next: Tap) { Sound(next) && Frame(k, next) && NothingStarted(k, next) }

  // The single assignments that only stop things.

  lemma CancelCalms(k: Tap)
    requires Sound(k)
    ensures var next := k.CancelButton();
            Calmer(k, next) && Rests(k.control, next.control) && next.button.blocked && next.queue == k.queue && next.servo == k.servo
            && next.Active() == k.Active() && next.control == k.control && next.hold == k.hold
            && next.deadline == k.deadline
  {
  }

  lemma StopControlCalms(k: Tap, why: Reason)
    requires Sound(k)
    ensures var next := k.StopControl(why);
            Calmer(k, next) && Rests(k.control, next.control) && !next.control.pouring && next.control.count == 0 && next.queue == k.queue
            && next.servo == k.servo && next.button == k.button && next.deadline == k.deadline
  {
  }

  lemma StopHoldCalms(k: Tap, why: Reason)
    requires Sound(k)
    ensures var next := k.StopHold(why);
            Calmer(k, next) && Rests(k.control, next.control) && !next.hold.pouring && next.queue == k.queue && next.servo == k.servo
            && next.button == k.button && next.deadline == k.deadline && next.control == k.control && next.selected == k.selected
  {
  }

  lemma StopBothCalms(k: Tap, why: Reason)
    requires Sound(k)
    ensures var next := k.StopBoth(why);
            Calmer(k, next) && Rests(k.control, next.control) && !next.Pouring() && next.queue == k.queue && next.servo == k.servo
            && next.button == k.button && next.deadline == k.deadline
  {
    hide Tap.StopControl, Tap.StopHold;
    StopControlCalms(k, why);
    StopHoldCalms(k.StopControl(why), why);
  }

  lemma StopTakenCalms(k: Tap, e: Env)
    requires Sound(k)
    ensures var next := k.StopTaken(e);
            Calmer(k, next) && next.control == k.control && next.servo == k.servo && next.deadline == k.deadline
            && !next.stopRequested
  {
  }

  lemma DropRequestsCalms(k: Tap)
    requires Sound(k)
    ensures var next := k.DropRequests();
            Calmer(k, next) && Rests(k.control, next.control) && next.queue == [] && next.deadline == 0 && next.button == k.button
            && next.Pouring() == k.Pouring()
  {
  }

  lemma ClearDeadlineCalms(k: Tap)
    requires Sound(k)
    ensures var next := k.ClearDeadline();
            Calmer(k, next) && Rests(k.control, next.control) && next.queue == k.queue && next.deadline == 0 && next.button == k.button
            && next.Pouring() == k.Pouring() && next.servo == k.servo
  {
  }

  lemma SuperviseKeeps(k: Tap, e: Env)
    requires Sound(k)
    ensures var next := k.Supervise(e, k.hold.pouring);
            && Calmer(k, next)
            && (if k.hold.pouring then next.control.count == 0 && !next.control.pouring
                else next.control == k.Look(e).control && next.selected == k.selected)
            && (next.hold.pouring ==> Elapsed(e.Now(), next.hold.started) < k.settings.maxPourMs && !e.high)
            && next.servo == k.servo
  {
    hide Tap.StopBoth, Tap.StopControl, Tap.StopHold, Tap.CancelButton, Tap.Look;
    var released := if k.hold.pouring && e.high then k.StopBoth(ButtonReleased).CancelButton() else k;
    StopBothCalms(k, ButtonReleased);
    CancelCalms(k.StopBoth(ButtonReleased));
    var looked := if released.hold.pouring then released else released.Look(e);
    LookCalms(released, e);
    StopHoldCalms(looked, MaximumTime);
    var timed :=
      if looked.hold.pouring && Elapsed(e.Now(), looked.hold.started) >= looked.settings.maxPourMs
      then looked.StopHold(MaximumTime) else looked;
    StopControlCalms(timed, timed.hold.reason);
    CancelCalms(timed.StopControl(timed.hold.reason));
  }

  lemma LookCalms(k: Tap, e: Env)
    requires Sound(k)
    ensures !k.hold.pouring ==> Calmer(k, k.Look(e)) && k.Look(e).selected == k.selected && k.Look(e).servo == k.servo
    ensures var next := k.Look(e).control;
            (next.pouring ==> k.control.pouring) && (k.control.pouring && !next.pouring ==> next.count == 0)
  {
    hide ControlState.Update;
    LookStartsNothing(k.control, if k.control.pouring then k.selected else k.settings, e.sample, e.Now());
  }

  lemma CheckKeeps(k: Tap, e: Env, was: bool, lockStop: bool, stop: bool)
    requires Sound(k)
    ensures var next := k.Check(e, was, lockStop, stop);
            && Calmer(k, next) && Rests(k.control, next.control)
            && !next.stopRequested && (stop ==> !next.Active() && next.queue == [] && next.button.blocked)
            && (stop && StopSite in e.pwmOk ==> next.servo == k.settings.closedUs)
            && (!was && next.deadline != 0 ==> next.servo == k.servo && !next.DeadlinePassed(e))
  {
    hide Tap.Halt, Tap.Finish;
    HaltKeeps(k, e, was, lockStop, stop);
    FinishKeeps(k.Halt(e, was, lockStop, stop), e, was);
  }

  /** Nothing but the servo and the two pour machines has changed. */
  ghost predicate OnlyServo(k: Tap, next: Tap) {
    && next.button == k.button && next.recorder == k.recorder && next.deadline == k.deadline && next.web == k.web
    && next.selected == k.selected && next.settings == k.settings && next.half == k.half && next.queue == k.queue
    && next.stopRequested == k.stopRequested && next.updating == k.updating && next.testActive == k.testActive
    && next.updateClosed == k.updateClosed && next.stopArmed == k.stopArmed && next.activeStop == k.activeStop
  }

  /** With nothing pouring, a servo command changes only the servo, or on a
      failed write stops what is already stopped. */
  lemma ServoMovesIdle(k: Tap, us: int, ok: bool)
    requires Sound(k) && !k.Pouring()
    ensures var next := k.SetServo(us, ok);
            && Sound(next) && !next.Pouring() && Frame(k, next) && Rests(k.control, next.control)
            && OnlyServo(k, next)
            && (ok || us == k.servo ==> next.servo == us)
            && (!ok ==> next.servo == k.servo)
  {
    hide Tap.StopBoth;
    BothStop(k, PwmFailure);
  }

  /** Opening the servo for a pour that has just begun: the write works, or the
      pour is over before it starts. */
  lemma ServoOpens(k: Tap, ok: bool)
    requires k.settings.Valid() && k.settings.servoCalibrated && k.deadline == 0
    requires !(k.control.pouring && k.hold.pouring) && !k.button.Live()
    requires k.hold.pouring ==> !k.web && k.control.count == 0
    ensures var next := k.SetServo(k.settings.openUs, ok);
            && Sound(next) && Frame(k, next) && Rests(k.control, next.control)
            && OnlyServo(k, next)
            && (next.control.pouring ==> k.control.pouring) && (next.hold.pouring ==> k.hold.pouring)
  {
    hide Tap.StopBoth;
    BothStop(k, PwmFailure);
  }

  lemma BothStop(k: Tap, why: Reason)
    ensures var next := k.StopBoth(why);
            && OnlyServo(k, next) && next.servo == k.servo && !next.Pouring() && next.control.count == 0
  {
  }

  lemma HaltKeeps(k: Tap, e: Env, was: bool, lockStop: bool, stop: bool)
    requires Sound(k)
    ensures var next := k.Halt(e, was, lockStop, stop);
            && Calmer(k, next) && Rests(k.control, next.control)
            && !next.stopRequested && (stop ==> !next.Active() && next.queue == [] && next.button.blocked)
            && (stop && StopSite in e.pwmOk ==> next.servo == k.settings.closedUs)
            && (!stop ==> next.servo == k.servo && next.deadline == k.deadline)
  {
    hide Tap.HaltNow, Tap.StopTaken;
    StopTakenCalms(k, e);
    var t := k.StopTaken(e);
    HaltNowKeeps(t, e, if lockStop then TapLocked else if was || t.deadline != 0 then EmergencyStop else TapClosed);
  }

  lemma HaltNowKeeps(k: Tap, e: Env, why: Reason)
    requires Sound(k)
    ensures var next := k.HaltNow(e, why);
            && Calmer(k, next) && Rests(k.control, next.control) && !next.Active() && next.queue == [] && next.button.blocked
            && (StopSite in e.pwmOk ==> next.servo == k.settings.closedUs)
  {
    hide Tap.SetServo, Tap.StopBoth, Tap.CancelButton, Tap.DropRequests;
    CancelCalms(k);
    StopBothCalms(k.CancelButton(), why);
    DropRequestsCalms(k.CancelButton().StopBoth(why));
    ServoMovesIdle(k.CancelButton().StopBoth(why).DropRequests(), k.settings.closedUs, StopSite in e.pwmOk);
  }

  lemma FinishKeeps(k: Tap, e: Env, was: bool)
    requires Sound(k)
    ensures var next := k.Finish(e, was);
            && Calmer(k, next) && Rests(k.control, next.control)
            && next.queue == k.queue && next.button == k.button
            && (k.servo == k.settings.closedUs ==> next.servo == k.servo)
            && (!was && next.deadline != 0 ==> next.servo == k.servo && !next.DeadlinePassed(e))
  {
    hide Tap.ExpireTest, Tap.SetServo;
    if was && !k.Pouring() {
      ServoMovesIdle(k, k.settings.closedUs, EndSite in e.pwmOk);
    }
    ExpireKeeps(k.EndPour(e, was), e);
  }

  lemma ExpireKeeps(k: Tap, e: Env)
    requires Sound(k)
    ensures var next := k.ExpireTest(e);
            && Calmer(k, next) && Rests(k.control, next.control)
            && next.queue == k.queue && next.button == k.button
            && (k.servo == k.settings.closedUs ==> next.servo == k.servo)
            && (if k.DeadlinePassed(e) then next.deadline == 0 else next == k)
  {
    hide Tap.SetServo, Tap.StopControl, Tap.ClearDeadline;
    if k.DeadlinePassed(e) {
      ServoMovesIdle(k, k.settings.closedUs, DeadlineSite in e.pwmOk);
      var shut := k.CloseServo(DeadlineSite in e.pwmOk);
      ClearDeadlineCalms(shut);
      StopControlCalms(shut.ClearDeadline(), TestCompleted);
    }
  }

  /** An automatic pour that `next` has and `k` has not was started by the target
      conditions of pour_target.h on a ready machine. */
  ghost predicate StartedFrom(k: Tap, e: Env, next: Tap) {
    exists half: bool ::
      && k.Eligible(e, half)
      && next.selected == k.settings.ForTarget(k.Target(half))
      && k.control.Ready(next.selected, e.Now())
      && next.control == k.control.Start(next.selected, e.Now()).(reason := next.control.reason)
  }

  /** An action starts at most one thing, in a state where nothing is under way
      or, for a test, where at most another test is. */
  ghost predicate Ran(k: Tap, e: Env, a: Action, next: Tap) {
    && Sound(next) && Frame(k, next)
    && (next.Active() ==> next.web == a.fromWeb && a.kind != Close)
    && !next.hold.pouring
    && (next.deadline != 0 ==> a.kind == Test && (ActionSite in e.pwmOk ==> next.servo == a.pulse))
    && if next.control.pouring
       then !k.Pouring() && !k.SavingRead(e, 1) && k.control.count >= 5 && StartedFrom(k, e, next)
       else Rests(k.control, next.control)
  }

  lemma RunKeeps(k: Tap, e: Env, a: Action)
    requires Sound(k) && k.Accepts(e, a)
    ensures Ran(k, e, a, k.Run(e, a))
  {
    match a.kind
    case Close =>
      CloseKeeps(k, e);
    case Test =>
      TestKeeps(k, e, a);
    case _ =>
      StartKeeps(k, e, a);
  }

  lemma CloseKeeps(k: Tap, e: Env)
    requires Sound(k)
    ensures var next := k.CloseAction(e); Calmer(k, next) && Rests(k.control, next.control) && !next.Active()
  {
    hide Tap.SetServo, Tap.StopBoth, Tap.CancelButton, Tap.ClearDeadline;
    CancelCalms(k);
    StopBothCalms(k.CancelButton(), ManualClose);
    var stopped := k.CancelButton().StopBoth(ManualClose);
    ClearDeadlineCalms(stopped);
    ServoMovesIdle(stopped.ClearDeadline(), k.settings.closedUs, ActionSite in e.pwmOk);
  }

  lemma TestKeeps(k: Tap, e: Env, a: Action)
    requires Sound(k) && !k.Pouring()
    ensures var next := k.TestAction(e, a);
            && Sound(next) && Frame(k, next) && !next.Pouring() && next.web == a.fromWeb
            && next.control.count == 0
            && next.deadline == Wrap(e.t + TEST_MS)
            && (ActionSite in e.pwmOk ==> next.servo == a.pulse)
  {
    hide Tap.SetServo;
    var ready := k.CancelButton().ForgetReadings(a.fromWeb);
    ServoMovesIdle(ready, a.pulse, ActionSite in e.pwmOk);
  }

  lemma StartKeeps(k: Tap, e: Env, a: Action)
    requires Sound(k) && k.Accepts(e, a) && (a.kind == Start || a.kind == StartHalf)
    ensures Ran(k, e, a, k.StartAction(e, a))
  {
    hide Tap.SetServo, Tap.Eligible;
    var half := a.kind == StartHalf;
    var c := k.settings.ForTarget(k.Target(half));
    if k.Eligible(e, half) && k.control.Ready(c, e.Now()) {
      var started := k.StartControl(c, e.Now());
      var begun := (if half then started.SetReason(HalfPour) else started).CancelButton().ForgetHold(a.fromWeb);
      ServoOpens(begun, ActionSite in e.pwmOk);
    }
  }

  // ------------------------------------------------------- a whole iteration

  ghost predicate ActDone(k: Tap, e: Env, ran: bool, a: Action, next: Tap) {
    if ran then Ran(k.Taken(), e, a, next) else next == k.Taken()
  }

  lemma ActKeeps(k: Tap, e: Env, ev: Gesture.ButtonEvent, was: bool, stop: bool)
    requires Sound(k)
    ensures var a := k.Pending(ev, was, stop);
            ActDone(k, e, k.Got(ev, was, stop) && !stop && k.Accepts(e, a), a, k.Act(e, ev, was, stop))
  {
    hide Tap.Run;
    var a := k.Pending(ev, was, stop);
    if k.Taken().Accepts(e, a) {
      RunKeeps(k.Taken(), e, a);
    }
  }

  ghost predicate HoldDone(k: Tap, e: Env, next: Tap) {
    && Sound(next) && Frame(k, next) && Rests(k.control, next.control)
    && (next.hold.pouring && !k.hold.pouring ==>
          !e.lockHold && !k.SavingRead(e, 2) && next.hold.started == e.Now() && !k.Active())
    && (next.control.pouring ==> k.control.pouring) && next.deadline == k.deadline && next.web == k.web
    && next.queue == k.queue
  }

  lemma HoldKeeps(k: Tap, e: Env, ev: Gesture.ButtonEvent, stop: bool, got: bool)
    requires Sound(k)
    requires ev.longPress && !stop && !got ==> !k.web && !k.button.Live()
    ensures HoldDone(k, e, k.HoldFill(e, ev, stop, got))
    ensures !ev.longPress || stop || got ==> k.HoldFill(e, ev, stop, got) == k
  {
    hide Tap.SetServo, Tap.StopBoth, Tap.CancelButton;
    if ev.longPress && !stop && !got {
      if k.HoldAccepted(e) {
        ServoOpens(k.StartHold(e.Now()).StopControl(ManualFill), HoldSite in e.pwmOk);
      } else {
        StopBothCalms(k, ManualRejected);
        CancelCalms(k.StopBoth(ManualRejected));
      }
    }
  }

  ghost predicate SettleDone(k: Tap, e: Env, next: Tap) {
    && Sound(next) && Frame(k, next) && Rests(k.control, next.control)
    && next.control.pouring == k.control.pouring && next.hold.pouring == k.hold.pouring
    && next.selected == k.selected && next.queue == k.queue && next.button == k.button
    && next.deadline == k.deadline && next.web == (k.web && k.Active())
    && next.testActive == (next.deadline != 0) && next.stopArmed == next.Active()
    && (k.Active() || k.servo == k.settings.closedUs ==> next.servo == k.servo)
    && (!k.Active() && k.settings.servoCalibrated && SettleSite in e.pwmOk ==> next.servo == k.settings.closedUs)
  }

  /** Readiness looks at the counters, not at the message. */
  lemma ReadinessOutlastsMessages(k: Tap, e: Env, s: ControlState, next: Tap)
    requires Rests(s, k.control) && StartedFrom(k, e, next)
    ensures exists half: bool ::
              && TargetReady(k.settings, s, e.sample, e.Now(), k.Target(half))
              && next.selected == k.settings.ForTarget(k.Target(half))
              && next.control == s.Start(next.selected, e.Now()).(reason := next.control.reason)
  {
    var half: bool :|
      && k.Eligible(e, half)
      && next.selected == k.settings.ForTarget(k.Target(half))
      && k.control.Ready(next.selected, e.Now())
      && next.control == k.control.Start(next.selected, e.Now()).(reason := next.control.reason);
    assert TargetReady(k.settings, s, e.sample, e.Now(), k.Target(half));
  }

  lemma SettleKeeps(k: Tap, e: Env)
    requires Sound(k)
    ensures SettleDone(k, e, k.Settle(e))
  {
    hide Tap.SetServo;
    if k.settings.servoCalibrated && !k.Active() {
      ServoMovesIdle(k, k.settings.closedUs, SettleSite in e.pwmOk);
    }
  }
}
