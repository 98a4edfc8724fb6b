/** One iteration of the controller task (app.cpp), and the requests that reach
    its state between iterations under the same mutex (network.cpp).

    `Tap` is the controller's state as a value and `Tap.Step` what one iteration
    does to it; `Controller` is the object the task works on in place, each of
    its methods proved against the function of the same name on `Tap`. */
module TapController {
  import opened Clock
  import opened TapTypes
  import opened PourControl
  import Gesture = ButtonGesture
  import Rec = PourRecorder

  const TEST_MS: nat := 2000
  const QUEUE_LENGTH: nat := 4

  datatype Kind = Start | Test | Close | StartHalf

  datatype Action = Action(kind: Kind, pulse: int, fromWeb: bool)

  /** The places where an iteration commands the servo. */
  datatype Site = UpdateSite | StopSite | EndSite | DeadlineSite | ActionSite | HoldSite | SettleSite

  /** What one iteration reads from outside. `t` is the true time in milliseconds
      of its clock reading and `t + lag` that of the later reading taken for the
      history. The PIN lock and setup flags belong to other tasks and are read
      several times; `writerAt` is the read of `history_saving` from which the
      writer task has finished; `pwmOk` holds the sites whose PWM write works. */
  datatype Env = Env(
    high: bool, t: nat, lag: nat, sample: Sample,
    lockButton: bool, lockStop: bool, lockCancel: bool, lockAction: bool, lockHold: bool,
    setupButton: bool, setupStart: bool, setupHold: bool,
    writerAt: nat, pwmOk: set<Site>)
  {
    function Now(): uint32 { Wrap(t) }
  }

  predicate TargetReady(c: Settings, control: ControlState, s: Sample, now: uint32, target: int) {
    c.stopMm <= target < c.maxMm && control.Ready(c, now) && s.Fresh(c, now) &&
    s.mm > target && s.StableDistance() > target
  }

  predicate HalfReady(c: Settings, control: ControlState, s: Sample, now: uint32, target: int) {
    target != 0 && c.ValidHalfTarget(target) && TargetReady(c, control, s, now, target)
  }

  datatype Tap = Tap(
    control: ControlState, hold: ControlState, button: Gesture.ButtonState, recorder: Rec.RecorderState,
    deadline: uint32, web: bool, selected: Settings, settings: Settings, half: int,
    servo: int, queue: seq<Action>, stopRequested: bool,
    updating: bool, updateClosed: bool, testActive: bool, stopArmed: bool, activeStop: int)
  {
    predicate Pouring() { control.pouring || hold.pouring }

    /** A pour or a servo test is under way. */
    predicate Active() { Pouring() || deadline != 0 }

    predicate SavingRead(e: Env, read: nat) { recorder.saving && e.writerAt > read }

    predicate Busy(e: Env) {
      Active() || e.setupButton || updating || SavingRead(e, 0) || e.lockButton
    }

    function ButtonEvent(e: Env): Gesture.ButtonEvent { button.Event(e.high, e.Now(), Busy(e)) }

    // Single assignments of the loop body, and the servo command.

    function PollButton(e: Env): Tap { this.(button := button.Update(e.high, e.Now(), Busy(e))) }

    function CancelButton(): Tap { this.(button := button.Cancel()) }

    function StopControl(why: Reason): Tap { this.(control := control.Stop(why)) }

    function StopHold(why: Reason): Tap { this.(hold := hold.Stop(why)) }

    function StopBoth(why: Reason): Tap { StopControl(why).StopHold(why) }

    function SetReason(why: Reason): Tap { this.(control := control.(reason := why)) }

    function SetServo(us: int, ok: bool): Tap {
      if us == servo then this
      else if ok then this.(servo := us)
      else StopBoth(PwmFailure)
    }

    function CloseServo(ok: bool): Tap { SetServo(settings.closedUs, ok) }

    function Look(e: Env): Tap {
      this.(control := control.Update(if control.pouring then selected else settings, e.sample, e.Now()))
    }

    function DropRequests(): Tap { this.(deadline := 0, queue := []) }

    function ClearDeadline(): Tap { this.(deadline := 0) }

    function ForgetReadings(fromWeb: bool): Tap {
      this.(control := control.ResetReady(), hold := hold.ResetReady(), web := fromWeb)
    }

    function ForgetHold(fromWeb: bool): Tap { this.(hold := hold.ResetReady(), web := fromWeb) }

    function SetDeadline(e: Env): Tap { this.(deadline := Wrap(e.t + TEST_MS)) }

    function StartControl(c: Settings, now: uint32): Tap {
      this.(selected := c, control := control.Start(c, now))
    }

    function StartHold(now: uint32): Tap {
      this.(selected := settings, hold := hold.(pouring := true, started := now, reason := ManualFill))
    }

    // The phases of one iteration.

    function Supervise(e: Env, heldWas: bool): Tap {
      var released := if hold.pouring && e.high then StopBoth(ButtonReleased).CancelButton() else this;
      var looked := if released.hold.pouring then released else released.Look(e);
      var timed :=
        if looked.hold.pouring && Elapsed(e.Now(), looked.hold.started) >= looked.settings.maxPourMs
        then looked.StopHold(MaximumTime) else looked;
      if heldWas && !timed.hold.pouring then timed.StopControl(timed.hold.reason).CancelButton() else timed
    }

    function ForUpdate(): Tap {
      this.(deadline := 0, testActive := false, queue := [], stopArmed := false, stopRequested := false)
    }

    function CloseForUpdate(e: Env): Tap {
      var k := CancelButton().StopBoth(Update).ForUpdate().CloseServo(UpdateSite in e.pwmOk);
      k.(updateClosed := k.servo == k.settings.closedUs)
    }

    function TakeStop(): Tap { this.(stopRequested := false) }

    function StopTaken(e: Env): Tap { (if e.lockCancel then CancelButton() else this).TakeStop() }

    function Halt(e: Env, was: bool, lockStop: bool, stop: bool): Tap {
      var k := StopTaken(e);
      if !stop then k
      else
        var why := if lockStop then TapLocked else if was || k.deadline != 0 then EmergencyStop else TapClosed;
        k.HaltNow(e, why)
    }

    function HaltNow(e: Env, why: Reason): Tap {
      CancelButton().StopBoth(why).DropRequests().CloseServo(StopSite in e.pwmOk)
    }

    predicate DeadlinePassed(e: Env) { deadline != 0 && Elapsed(e.Now(), deadline) < WORD / 2 }

    function EndPour(e: Env, was: bool): Tap {
      if was && !Pouring() then CloseServo(EndSite in e.pwmOk) else this
    }

    function ExpireTest(e: Env): Tap {
      if DeadlinePassed(e) then CloseServo(DeadlineSite in e.pwmOk).ClearDeadline().StopControl(TestCompleted) else this
    }

    function Finish(e: Env, was: bool): Tap { EndPour(e, was).ExpireTest(e) }

    /** Whether an action is pending for this iteration, and which. */
    predicate Got(ev: Gesture.ButtonEvent, was: bool, stop: bool) {
      queue != [] || (ev.shortPress && !was && !stop)
    }

    function Pending(ev: Gesture.ButtonEvent, was: bool, stop: bool): Action {
      if queue == [] || (ev.shortPress && !was && !stop) then Action(Start, 0, false) else queue[0]
    }

    function Taken(): Tap { this.(queue := if queue == [] then [] else queue[1..]) }

    function CloseAction(e: Env): Tap {
      CancelButton().StopBoth(ManualClose).ClearDeadline().CloseServo(ActionSite in e.pwmOk)
    }

    function TestAction(e: Env, a: Action): Tap {
      CancelButton().ForgetReadings(a.fromWeb).SetServo(a.pulse, ActionSite in e.pwmOk).SetDeadline(e).SetReason(ServoTest)
    }

    function Target(half: bool): int { if half then this.half else settings.stopMm }

    predicate Eligible(e: Env, half: bool) {
      if half then HalfReady(settings, control, e.sample, e.Now(), this.half)
      else TargetReady(settings, control, e.sample, e.Now(), settings.stopMm)
    }

    function StartAction(e: Env, a: Action): Tap {
      var half := a.kind == StartHalf;
      if !Eligible(e, half) then SetReason(if half then HalfUnavailable else StartRejected)
      else
        var c := settings.ForTarget(Target(half));
        var k := StartControl(c, e.Now());
        if !control.Ready(c, e.Now()) then k
        else
          (if half then k.SetReason(HalfPour) else k)
          .CancelButton().ForgetHold(a.fromWeb).SetServo(settings.openUs, ActionSite in e.pwmOk)
    }

    /** The lock lets the action through, and the action may do something now. */
    predicate Accepts(e: Env, a: Action) {
      && (!e.lockAction || a.fromWeb || a.kind == Close)
      && match a.kind
         case Close => true
         case Test => !Pouring() && !SavingRead(e, 1)
         case _ => !e.setupStart && deadline == 0 && !SavingRead(e, 1) && !Pouring()
    }

    function Run(e: Env, a: Action): Tap {
      match a.kind
      case Close => CloseAction(e)
      case Test => TestAction(e, a)
      case _ => StartAction(e, a)
    }

    function Act(e: Env, ev: Gesture.ButtonEvent, was: bool, stop: bool): Tap {
      var a := Pending(ev, was, stop);
      if Got(ev, was, stop) && !stop && Taken().Accepts(e, a) then Taken().Run(e, a) else Taken()
    }

    predicate HoldAccepted(e: Env) {
      !e.lockHold && !e.setupHold && deadline == 0 && !SavingRead(e, 2) && !Pouring() && settings.servoCalibrated
    }

    function HoldFill(e: Env, ev: Gesture.ButtonEvent, stop: bool, got: bool): Tap {
      if !ev.longPress || stop || got then this
      else if HoldAccepted(e) then
        StartHold(e.Now()).StopControl(ManualFill).SetServo(settings.openUs, HoldSite in e.pwmOk)
      else StopBoth(ManualRejected).CancelButton()
    }

    function Flags(): Tap {
      this.(web := web && Active(), testActive := deadline != 0, stopArmed := Active(),
            activeStop := if control.pouring then selected.stopMm else settings.stopMm)
    }

    function Settle(e: Env): Tap {
      (if settings.servoCalibrated && !Active() then CloseServo(SettleSite in e.pwmOk) else this).Flags()
    }

    function Observation(e: Env, ev: Gesture.ButtonEvent, was: bool, heldWas: bool): Rec.Observation {
      Rec.Observation(
        e.sample,
        if !hold.pouring && !heldWas && (control.pouring || was) then selected else settings,
        Wrap(e.t + e.lag), servo, Pouring(), hold.pouring,
        ev.pressed || ev.shortPress || ev.longPress,
        if hold.pouring then hold.reason else control.reason)
    }

    /** The writer task may have finished before the history looks at its flag. */
    function WriterSeen(e: Env): Tap { this.(recorder := recorder.(saving := SavingRead(e, 3))) }

    function Observed(o: Rec.Observation): Tap { this.(recorder := recorder.Observe(o)) }

    function Record(e: Env, o: Rec.Observation): Tap { WriterSeen(e).Observed(o) }

    predicate LockStops(e: Env) { e.lockStop && !web && Active() }

    predicate Stops(e: Env) {
      stopRequested || (ButtonEvent(e).pressed && Active()) || LockStops(e)
    }

    /** Stops and deadlines. */
    function Check(e: Env, was: bool, lockStop: bool, stop: bool): Tap {
      Halt(e, was, lockStop, stop).Finish(e, was)
    }

    /** Actions, the long press and the resting position of the servo. */
    function Decide(e: Env, ev: Gesture.ButtonEvent, was: bool, stop: bool): Tap {
      Act(e, ev, was, stop).HoldFill(e, ev, stop, Got(ev, was, stop)).Settle(e)
    }

    function Checked(e: Env): Tap {
      PollButton(e).Supervise(e, hold.pouring).Check(e, Pouring(), LockStops(e), Stops(e))
    }

    /** The state when only the history is left to be told. */
    function Settled(e: Env): Tap { Checked(e).Decide(e, ButtonEvent(e), Pouring(), Stops(e)) }

    function Step(e: Env): Tap {
      if updating then PollButton(e).Supervise(e, hold.pouring).CloseForUpdate(e)
      else
        var k := Settled(e);
        k.Record(e, k.Observation(e, ButtonEvent(e), Pouring(), hold.pouring))
    }

    // ------------------------------------------- requests between iterations

    predicate Quiet() { !Pouring() && !testActive && !updating && !recorder.saving }

    function Adopt(next: Settings, nextHalf: int): Tap {
      this.(settings := next, half := nextHalf, activeStop := next.stopMm, queue := [])
    }

    function Configure(next: Settings, nextHalf: int, saved: bool): Tap {
      if Quiet() && next.Valid() && next.ValidHalfTarget(nextHalf) && saved
      then Adopt(next, nextHalf).StopControl(SettingsSaved)
      else this
    }

    function BeginUpdate(foamActive: bool): Tap {
      if Quiet() && !foamActive then this.(updating := true, updateClosed := false, queue := []) else this
    }

    function EndUpdate(): Tap { this.(updating := false, updateClosed := false, queue := []) }

    function FailUpdate(): Tap {
      if updating then EndUpdate().StopControl(UpdateFailed) else this
    }

    function Enqueue(a: Action): Tap {
      if |queue| < QUEUE_LENGTH then this.(queue := queue + [a]) else this
    }

    function Apply(event: Event): Tap {
      match event
      case Iterate(e) => Step(e)
      case Configure(next, nextHalf, saved) => Configure(next, nextHalf, saved)
      case BeginUpdate(foamActive) => BeginUpdate(foamActive)
      case FailUpdate => FailUpdate()
      case Enqueue(a) => Enqueue(a)
      case RequestStop => this.(stopRequested := true)
      case WriterDone => this.(recorder := recorder.(saving := false))
    }
  }

  datatype Event =
    | Iterate(e: Env)
    | Configure(next: Settings, nextHalf: int, saved: bool)
    | BeginUpdate(foamActive: bool)
    | FailUpdate
    | Enqueue(a: Action)
    | RequestStop
    | WriterDone

  function BootState(c: Settings, half: int, high: bool, now: uint32, available: bool): Tap {
    Tap(BOOT_STATE, BOOT_STATE, Gesture.Initial(high, now),
        Rec.RecorderState(available, false, false, false, 0, 0, Rec.Summary(c, false, 0, Boot), []),
        0, false, c, c, half, 0, [], false, false, false, false, false, c.stopMm)
  }
}
