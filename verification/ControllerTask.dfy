/** The controller task as an object updated in place, phase by phase as in the
    loop body of app.cpp; every method is proved to do what `Tap` says. */
module ControllerTask {
  import opened Clock
  import opened TapTypes
  import opened PourControl
  import opened TapController
  import Gesture = ButtonGesture
  import Rec = PourRecorder

  class Controller {
    const control: Control
    const manualHold: Control
    const button: Gesture.Button
    const recorder: Rec.Recorder
    var manualDeadline: uint32
    var webOperation: bool
    var selected: Settings
    var settings: Settings
    var halfStopMm: int
    var servoUs: int
    var actions: seq<Action>
    var stopRequested: bool
    var firmwareUpdating: bool
    var updateClosed: bool
    var manualTestActive: bool
    var touchStopArmed: bool
    var activeStopMm: int

    ghost predicate Valid()
      reads this, recorder
    {
      control != manualHold && recorder.Valid()
    }

    ghost function Footprint(): set<object> { {this, control, manualHold, button, recorder, recorder.points} }

    ghost function View(): Tap
      requires Valid()
      reads this, control, manualHold, button, recorder, recorder.points
    {
      Tap(control.State(), manualHold.State(), button.State(), recorder.State(),
          manualDeadline, webOperation, selected, settings, halfStopMm,
          servoUs, actions, stopRequested,
          firmwareUpdating, updateClosed, manualTestActive, touchStopArmed, activeStopMm)
    }

    /** `start()`: stored settings are used only when valid; a calibrated servo is
        closed at once, unless the PWM write fails. */
    constructor (stored: Settings, storedHalf: int, defaults: Settings, high: bool, now: uint32,
                 available: bool, pwmOk: bool)
      requires defaults.Valid()
      ensures Valid() && fresh(Footprint())
      ensures var c := if stored.Valid() then stored else defaults;
              var half := if c.ValidHalfTarget(storedHalf) then storedHalf else 0;
              var k := BootState(c, half, high, now, available);
              View() == if c.servoCalibrated then k.SetServo(c.closedUs, pwmOk) else k
    {
      hide Tap.SetServo;
      control := new Control();
      manualHold := new Control();
      button := new Gesture.Button(high, now);
      var c := if stored.Valid() then stored else defaults;
      recorder := new Rec.Recorder(available, c);
      settings, selected, activeStopMm := c, c, c.stopMm;
      halfStopMm := if c.ValidHalfTarget(storedHalf) then storedHalf else 0;
      manualDeadline, webOperation, servoUs, actions := 0, false, 0, [];
      stopRequested, firmwareUpdating, updateClosed := false, false, false;
      manualTestActive, touchStopArmed := false, false;
      new;
      if c.servoCalibrated {
        SetServo(c.closedUs, pwmOk);
      }
    }

    // Single assignments of the loop body, and the servo command.

    method Before(e: Env) returns (was: bool, active: bool, busy: bool, lockStop: bool)
      requires Valid()
      ensures var k := View();
              was == k.Pouring() && active == k.Active() && busy == k.Busy(e) && lockStop == k.LockStops(e)
    {
      was := control.pouring || manualHold.pouring;
      active := was || manualDeadline != 0;
      busy := active || e.setupButton || firmwareUpdating || (recorder.saving && e.writerAt > 0) || e.lockButton;
      lockStop := e.lockStop && !webOperation && active;
    }

    method PollButton(e: Env, busy: bool) returns (ev: Gesture.ButtonEvent)
      requires Valid() && busy == View().Busy(e)
      modifies button
      ensures Valid() && View() == old(View()).PollButton(e) && ev == old(View()).ButtonEvent(e)
    {
      ev := button.Update(e.high, e.Now(), busy);
    }

    /** `k` is the state before the button was polled. */
    method ShouldStop(e: Env, ev: Gesture.ButtonEvent, active: bool, lockStop: bool, ghost k: Tap) returns (stop: bool)
      requires ev == k.ButtonEvent(e) && active == k.Active() && lockStop == k.LockStops(e)
      requires stopRequested == k.stopRequested
      ensures stop == k.Stops(e)
    {
      stop := stopRequested || (ev.pressed && active) || lockStop;
    }

    method Judge(e: Env) returns (ev: Gesture.ButtonEvent, was: bool, heldWas: bool, lockStop: bool, stop: bool)
      requires Valid()
      modifies button
      ensures Valid() && View() == old(View()).PollButton(e)
      ensures ev == old(View()).ButtonEvent(e)
      ensures was == old(View()).Pouring() && heldWas == old(View()).hold.pouring
      ensures lockStop == old(View()).LockStops(e) && stop == old(View()).Stops(e)
    {
      hide Tap.PollButton, Tap.ButtonEvent, Tap.LockStops, Tap.Stops, Tap.Pouring, Tap.Active, Tap.Busy;
      ghost var k := View();
      var active, busy;
      was, active, busy, lockStop := Before(e);
      heldWas := manualHold.pouring;
      ev := PollButton(e, busy);
      stop := ShouldStop(e, ev, active, lockStop, k);
    }

    method CancelButton()
      requires Valid()
      modifies button
      ensures Valid() && View() == old(View()).CancelButton()
    {
      button.CancelUntilRelease();
    }

    method StopControl(why: Reason)
      requires Valid()
      modifies control
      ensures Valid() && View() == old(View()).StopControl(why)
    {
      control.Stop(why);
    }

    method StopHold(why: Reason)
      requires Valid()
      modifies manualHold
      ensures Valid() && View() == old(View()).StopHold(why)
    {
      manualHold.Stop(why);
    }

    method SetServo(us: int, ok: bool)
      requires Valid()
      modifies this`servoUs, control, manualHold
      ensures Valid() && View() == old(View()).SetServo(us, ok)
    {
      if us == servoUs {
        return;
      }
      if !ok {
        StopControl(PwmFailure);
        StopHold(PwmFailure);
        return;
      }
      servoUs := us;
    }

    method Look(e: Env)
      requires Valid()
      modifies control
      ensures Valid() && View() == old(View()).Look(e)
    {
      control.Update(if control.pouring then selected else settings, e.sample, e.Now());
    }

    method TakeStop()
      requires Valid()
      modifies this`stopRequested
      ensures Valid() && View() == old(View()).TakeStop()
    {
      stopRequested := false;
    }

    method DropRequests()
      requires Valid()
      modifies this`manualDeadline, this`actions
      ensures Valid() && View() == old(View()).DropRequests()
    {
      manualDeadline, actions := 0, [];
    }

    method ClearDeadline()
      requires Valid()
      modifies this`manualDeadline
      ensures Valid() && View() == old(View()).ClearDeadline()
    {
      manualDeadline := 0;
    }

    method SetDeadline(e: Env)
      requires Valid()
      modifies this`manualDeadline
      ensures Valid() && View() == old(View()).SetDeadline(e)
    {
      manualDeadline := Wrap(e.t + TEST_MS);
    }

    method Taken() returns (taken: seq<Action>)
      requires Valid()
      modifies this`actions
      ensures Valid() && View() == old(View()).Taken()
      ensures taken == if old(actions) == [] then [] else [old(actions)[0]]
    {
      taken := [];
      if actions != [] {
        taken, actions := [actions[0]], actions[1..];
      }
    }

    method ForUpdate()
      requires Valid()
      modifies this
      ensures Valid() && View() == old(View()).ForUpdate()
    {
      hide Control.State, Rec.Recorder.State, Gesture.Button.State;
      manualDeadline, manualTestActive, actions := 0, false, [];
      touchStopArmed, stopRequested := false, false;
    }

    method Flags()
      requires Valid()
      modifies this`webOperation, this`manualTestActive, this`touchStopArmed, this`activeStopMm
      ensures Valid() && View() == old(View()).Flags()
    {
      hide Rec.Recorder.State, Gesture.Button.State;
      var pouring := control.pouring || manualHold.pouring;
      if !pouring && manualDeadline == 0 {
        webOperation := false;
      }
      manualTestActive := manualDeadline != 0;
      touchStopArmed := pouring || manualTestActive;
      activeStopMm := if control.pouring then selected.stopMm else settings.stopMm;
    }

    method WriterSeen(e: Env)
      requires Valid()
      modifies recorder`saving
      ensures Valid() && View() == old(View()).WriterSeen(e)
    {
      if e.writerAt <= 3 {
        recorder.SavingDone();
      }
    }

    method Observed(o: Rec.Observation)
      requires Valid()
      modifies recorder, recorder.points
      ensures Valid() && View() == old(View()).Observed(o)
    {
      hide Rec.RecorderState.Observe;
      recorder.Observe(o);
    }

    method Adopt(next: Settings, nextHalf: int)
      requires Valid()
      modifies this`settings, this`halfStopMm, this`activeStopMm, this`actions
      ensures Valid() && View() == old(View()).Adopt(next, nextHalf)
    {
      settings, halfStopMm, activeStopMm, actions := next, nextHalf, next.stopMm, [];
    }

    method EndUpdate()
      requires Valid()
      modifies this`firmwareUpdating, this`updateClosed, this`actions
      ensures Valid() && View() == old(View()).EndUpdate()
    {
      firmwareUpdating, updateClosed, actions := false, false, [];
    }

    method Supervise(e: Env, heldWas: bool)
      requires Valid()
      modifies control, manualHold, button
      ensures Valid() && View() == old(View()).Supervise(e, heldWas)
    {
      hide Tap.PollButton, Tap.CancelButton, Tap.StopControl, Tap.StopHold, Tap.SetServo, Tap.Look;
      hide Rec.Recorder.State, Gesture.Button.State;
      if manualHold.pouring && e.high {
        StopControl(ButtonReleased);
        StopHold(ButtonReleased);
        CancelButton();
      }
      if !manualHold.pouring {
        Look(e);
      }
      if manualHold.pouring && Elapsed(e.Now(), manualHold.started) >= settings.maxPourMs {
        StopHold(MaximumTime);
      }
      if heldWas && !manualHold.pouring {
        StopControl(manualHold.reason);
        CancelButton();
      }
    }

    method CloseForUpdate(e: Env)
      requires Valid()
      modifies this, control, manualHold, button
      ensures Valid() && View() == old(View()).CloseForUpdate(e)
    {
      hide Tap.PollButton, Tap.CancelButton, Tap.StopControl, Tap.StopHold, Tap.SetServo, Tap.ForUpdate, Tap.Look;
      CancelButton();
      StopControl(Update);
      StopHold(Update);
      ForUpdate();
      SetServo(settings.closedUs, UpdateSite in e.pwmOk);
      updateClosed := servoUs == settings.closedUs;
    }

    method Halt(e: Env, was: bool, lockStop: bool, stop: bool)
      requires Valid()
      modifies this, control, manualHold, button
      ensures Valid() && View() == old(View()).Halt(e, was, lockStop, stop)
    {
      hide Tap.PollButton, Tap.CancelButton, Tap.StopControl, Tap.StopHold, Tap.SetServo, Tap.TakeStop, Tap.DropRequests, Tap.Look;
      if e.lockCancel {
        CancelButton();
      }
      TakeStop();
      if stop {
        var why := if lockStop then TapLocked else if was || manualDeadline != 0 then EmergencyStop else TapClosed;
        CancelButton();
        StopControl(why);
        StopHold(why);
        DropRequests();
        SetServo(settings.closedUs, StopSite in e.pwmOk);
      }
    }

    method Finish(e: Env, was: bool)
      requires Valid()
      modifies this, control, manualHold
      ensures Valid() && View() == old(View()).Finish(e, was)
    {
      hide Tap.PollButton, Tap.CancelButton, Tap.StopControl, Tap.StopHold, Tap.SetServo, Tap.ClearDeadline, Tap.Look;
      if was && !(control.pouring || manualHold.pouring) {
        SetServo(settings.closedUs, EndSite in e.pwmOk);
      }
      if manualDeadline != 0 && Elapsed(e.Now(), manualDeadline) < WORD / 2 {
        SetServo(settings.closedUs, DeadlineSite in e.pwmOk);
        ClearDeadline();
        StopControl(TestCompleted);
      }
    }

    method CloseAction(e: Env)
      requires Valid()
      modifies this, control, manualHold, button
      ensures Valid() && View() == old(View()).CloseAction(e)
    {
      hide Tap.PollButton, Tap.CancelButton, Tap.StopControl, Tap.StopHold, Tap.SetServo, Tap.ClearDeadline, Tap.Look;
      CancelButton();
      StopControl(ManualClose);
      StopHold(ManualClose);
      ClearDeadline();
      SetServo(settings.closedUs, ActionSite in e.pwmOk);
    }

    method ForgetReadings(fromWeb: bool)
      requires Valid()
      modifies this`webOperation, control, manualHold
      ensures Valid() && View() == old(View()).ForgetReadings(fromWeb)
    {
      control.ResetReady();
      manualHold.ResetReady();
      webOperation := fromWeb;
    }

    method SetReason(why: Reason)
      requires Valid()
      modifies control
      ensures Valid() && View() == old(View()).SetReason(why)
    {
      control.reason := why;
    }

    method TestAction(e: Env, a: Action)
      requires Valid()
      modifies this, control, manualHold, button
      ensures Valid() && View() == old(View()).TestAction(e, a)
    {
      hide Tap.PollButton, Tap.CancelButton, Tap.StopControl, Tap.StopHold, Tap.SetServo, Tap.SetDeadline,
           Tap.Look, Tap.ForgetReadings, Tap.SetReason;
      CancelButton();
      ForgetReadings(a.fromWeb);
      SetServo(a.pulse, ActionSite in e.pwmOk);
      SetDeadline(e);
      SetReason(ServoTest);
    }

    method StartControl(c: Settings, now: uint32) returns (started: bool)
      requires Valid()
      modifies this`selected, control
      ensures Valid() && View() == old(View()).StartControl(c, now)
      ensures started == old(View()).control.Ready(c, now)
    {
      selected := c;
      started := control.Start(c, now);
    }

    method ForgetHold(fromWeb: bool)
      requires Valid()
      modifies this`webOperation, manualHold
      ensures Valid() && View() == old(View()).ForgetHold(fromWeb)
    {
      manualHold.ResetReady();
      webOperation := fromWeb;
    }

    method IsEligible(e: Env, half: bool) returns (eligible: bool)
      requires Valid()
      ensures eligible == View().Eligible(e, half)
    {
      var target := if half then halfStopMm else settings.stopMm;
      var ready := control.Ready(settings, e.Now());
      eligible :=
        (half ==> target != 0 && settings.ValidHalfTarget(target)) &&
        settings.stopMm <= target < settings.maxMm && ready && e.sample.Fresh(settings, e.Now()) &&
        e.sample.mm > target && e.sample.StableDistance() > target;
    }

    method StartAction(e: Env, a: Action)
      requires Valid()
      modifies this, control, manualHold, button
      ensures Valid() && View() == old(View()).StartAction(e, a)
    {
      hide Tap.CancelButton, Tap.StopControl, Tap.StopHold, Tap.SetServo, Tap.Eligible, Tap.StartControl, Tap.ForgetHold, Tap.SetReason;
      var half := a.kind == StartHalf;
      var eligible := IsEligible(e, half);
      if eligible {
        var started := StartControl(settings.ForTarget(if half then halfStopMm else settings.stopMm), e.Now());
        if started {
          if half {
            SetReason(HalfPour);
          }
          CancelButton();
          ForgetHold(a.fromWeb);
          SetServo(settings.openUs, ActionSite in e.pwmOk);
        }
      } else {
        SetReason(if half then HalfUnavailable else StartRejected);
      }
    }

    method Accepts(e: Env, a: Action) returns (ok: bool)
      requires Valid()
      ensures ok == View().Accepts(e, a)
    {
      var pouring := control.pouring || manualHold.pouring;
      var saving := recorder.saving && e.writerAt > 1;
      ok := (!e.lockAction || a.fromWeb || a.kind == Close) &&
            (a.kind == Close ||
             (!pouring && !saving && (a.kind == Test || (!e.setupStart && manualDeadline == 0))));
    }

    method Act(e: Env, ev: Gesture.ButtonEvent, was: bool, stop: bool) returns (got: bool)
      requires Valid()
      modifies this, control, manualHold, button
      ensures Valid() && View() == old(View()).Act(e, ev, was, stop)
      ensures got == old(View()).Got(ev, was, stop)
    {
      hide Tap.Taken, Tap.CloseAction, Tap.TestAction, Tap.StartAction, Tap.Accepts;
      var a := Action(Start, 0, false);
      var taken := Taken();
      got := taken != [];
      if got {
        a := taken[0];
      }
      if ev.shortPress && !was && !stop {
        a := Action(Start, 0, false);
        got := true;
      }
      if got && !stop {
        var ok := Accepts(e, a);
        if ok {
          if a.kind == Close {
            CloseAction(e);
          } else if a.kind == Test {
            TestAction(e, a);
          } else {
            StartAction(e, a);
          }
        }
      }
    }

    method StartHold(now: uint32)
      requires Valid()
      modifies this`selected, manualHold
      ensures Valid() && View() == old(View()).StartHold(now)
    {
      selected := settings;
      manualHold.pouring := true;
      manualHold.started := now;
      manualHold.reason := ManualFill;
    }

    method HoldFill(e: Env, ev: Gesture.ButtonEvent, stop: bool, got: bool)
      requires Valid()
      modifies this, control, manualHold, button
      ensures Valid() && View() == old(View()).HoldFill(e, ev, stop, got)
    {
      hide Tap.PollButton, Tap.CancelButton, Tap.StopControl, Tap.StopHold, Tap.SetServo, Tap.Look, Tap.StartHold;
      if !ev.longPress || stop || got {
        return;
      }
      var saving := recorder.saving && e.writerAt > 2;
      if !e.lockHold && !e.setupHold && manualDeadline == 0 && !saving &&
         !(control.pouring || manualHold.pouring) && settings.servoCalibrated {
        StartHold(e.Now());
        StopControl(ManualFill);
        SetServo(settings.openUs, HoldSite in e.pwmOk);
      } else {
        StopControl(ManualRejected);
        StopHold(ManualRejected);
        CancelButton();
      }
    }

    method Settle(e: Env)
      requires Valid()
      modifies this, control, manualHold
      ensures Valid() && View() == old(View()).Settle(e)
    {
      hide Tap.PollButton, Tap.CancelButton, Tap.StopControl, Tap.StopHold, Tap.SetServo, Tap.Flags, Tap.Look;
      if settings.servoCalibrated && !(control.pouring || manualHold.pouring) && manualDeadline == 0 {
        SetServo(settings.closedUs, SettleSite in e.pwmOk);
      }
      Flags();
    }

    method Check(e: Env, was: bool, lockStop: bool, stop: bool)
      requires Valid()
      modifies this, control, manualHold, button
      ensures Valid() && View() == old(View()).Check(e, was, lockStop, stop)
    {
      hide Tap.Halt, Tap.Finish;
      Halt(e, was, lockStop, stop);
      Finish(e, was);
    }

    method Decide(e: Env, ev: Gesture.ButtonEvent, was: bool, stop: bool)
      requires Valid()
      modifies this, control, manualHold, button
      ensures Valid() && View() == old(View()).Decide(e, ev, was, stop)
    {
      hide Tap.Act, Tap.HoldFill, Tap.Settle, Tap.Got;
      var got := Act(e, ev, was, stop);
      HoldFill(e, ev, stop, got);
      Settle(e);
    }

    method Record(e: Env, ev: Gesture.ButtonEvent, was: bool, heldWas: bool)
      requires Valid()
      modifies recorder, recorder.points
      ensures Valid()
      ensures View() == old(View()).Record(e, old(View()).Observation(e, ev, was, heldWas))
    {
      hide Tap.WriterSeen, Tap.Observed;
      var observed :=
        if !manualHold.pouring && !heldWas && (control.pouring || was) then selected else settings;
      var o := Rec.Observation(
        e.sample, observed, Wrap(e.t + e.lag), servoUs, control.pouring || manualHold.pouring, manualHold.pouring,
        ev.pressed || ev.shortPress || ev.longPress,
        if manualHold.pouring then manualHold.reason else control.reason);
      WriterSeen(e);
      Observed(o);
    }

    /** One iteration of the endless loop. */
    method Step(e: Env)
      requires Valid()
      modifies this, control, manualHold, button, recorder, recorder.points
      ensures Valid() && View() == old(View()).Step(e)
    {
      hide Tap.PollButton, Tap.Supervise, Tap.CloseForUpdate, Tap.Check, Tap.Decide, Tap.Record,
           Tap.ButtonEvent, Tap.Observation, Tap.LockStops, Tap.Stops, Tap.Pouring, Tap.Active, Tap.Busy;
      var ev, was, heldWas, lockStop, stop := Judge(e);
      Supervise(e, heldWas);
      if firmwareUpdating {
        CloseForUpdate(e);
      } else {
        Check(e, was, lockStop, stop);
        Decide(e, ev, was, stop);
        Record(e, ev, was, heldWas);
      }
    }

    // ------------------------------------------- requests between iterations

    method Configure(next: Settings, nextHalf: int, saved: bool) returns (ok: bool)
      requires Valid()
      modifies this, control
      ensures Valid() && View() == old(View()).Configure(next, nextHalf, saved)
      ensures ok == (old(View()).Quiet() && next.Valid() && next.ValidHalfTarget(nextHalf) && saved)
    {
      hide Tap.Adopt, Tap.StopControl;
      ok := !(control.pouring || manualHold.pouring) && !manualTestActive && !firmwareUpdating && !recorder.saving &&
            next.Valid() && next.ValidHalfTarget(nextHalf) && saved;
      if ok {
        Adopt(next, nextHalf);
        StopControl(SettingsSaved);
      }
    }

    method BeginUpdate(foamActive: bool) returns (ok: bool)
      requires Valid()
      modifies this
      ensures Valid() && View() == old(View()).BeginUpdate(foamActive)
      ensures ok == (old(View()).Quiet() && !foamActive)
    {
      ok := !(control.pouring || manualHold.pouring) && !manualTestActive && !firmwareUpdating && !recorder.saving &&
            !foamActive;
      if ok {
        firmwareUpdating, updateClosed, actions := true, false, [];
      }
    }

    method FailUpdate()
      requires Valid() && firmwareUpdating
      modifies this, control
      ensures Valid() && View() == old(View()).FailUpdate()
    {
      hide Tap.EndUpdate, Tap.StopControl;
      EndUpdate();
      StopControl(UpdateFailed);
    }
  }
}
