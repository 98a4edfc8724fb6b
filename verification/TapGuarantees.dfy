/** The guarantees of the tap controller, for every run: any boot, then any
    events in any order, with the clock wrapping freely. */
module TapGuarantees {
  import opened Clock
  import opened TapTypes
  import opened PourControl
  import opened TapController
  import opened TapSafety
  import opened TapTheorems
  import Runs = PourRuns
  import Modes = TapModes
  import Gesture = ButtonGesture
  import Rec = PourRecorder

  /** After start-up nothing is under way, waiting or recorded, the machine is reset, and
      a calibrated servo is closed if the write works; the stored settings are in use. */
  lemma StartsClosed(boot: Boot)
    requires boot.Valid()
    ensures var k := boot.State();
            && !k.Active() && k.control.count == 0 && k.queue == [] && !k.stopRequested && !k.updating && !k.updateClosed && !k.web
            && k.settings == boot.c && k.half == boot.half && k.activeStop == boot.c.stopMm && !k.testActive && !k.stopArmed
            && (boot.c.servoCalibrated && boot.pwmOk ==> k.servo == boot.c.closedUs)
            && !k.recorder.recording && !k.recorder.saving && k.recorder.available == boot.available
  {
  }

  /** At most four actions wait; one more is dropped, and a stop request is kept for the
      next iteration. */
  lemma {:induction false} FewActionsWait(boot: Boot, events: seq<Event>)
    requires boot.Valid()
    ensures |After(boot.State(), events).queue| <= 4
    decreases |events|
  {
    hide Tap.Step;
    if events == [] {
      StartsClosed(boot);
    } else {
      var init, last := events[..|events| - 1], events[|events| - 1];
      FewActionsWait(boot, init);
      var k := After(boot.State(), init);
      if last.Iterate? && !k.updating {
        Modes.QueueAdvances(k, last.e);
      } else if last.Iterate? {
        UpdateDropsActions(k, last.e);
      }
    }
  }

  lemma UpdateDropsActions(k: Tap, e: Env)
    ensures var n := k.Step(e);
            k.updating ==> n.queue == [] && !n.stopArmed && !n.testActive && !n.stopRequested && n.deadline == 0
  {
    hide Tap.Supervise, Tap.PollButton, Tap.StopBoth, Tap.CancelButton, Tap.SetServo;
    var t := k.PollButton(e).Supervise(e, k.hold.pouring).CancelButton().StopBoth(Update).ForUpdate();
    Modes.ServoOnly(t, t.settings.closedUs, UpdateSite in e.pwmOk);
  }

  lemma WaitingActions(k: Tap, a: Action)
    ensures k.Apply(Enqueue(a)) == if |k.queue| < 4 then k.(queue := k.queue + [a]) else k
    ensures k.Apply(RequestStop) == k.(stopRequested := true)
    ensures forall e :: Modes.Stopped(k.Apply(RequestStop), e)
  {
  }

  // ------------------------------------------------ one iteration at a time

  /** At most one of automatic pour, manual hold and servo test is ever under way,
      and during a pour the servo stands open. A failed PWM write cannot break
      this: it ends the pour. */
  lemma OneThingAtATime(k: Tap)
    requires Reachable(k)
    ensures !(k.control.pouring && k.hold.pouring)
    ensures k.deadline != 0 ==> !k.Pouring()
    ensures k.Pouring() ==> k.settings.servoCalibrated && k.servo == k.settings.openUs
    ensures k.updating ==> !k.Active()
  {
    ReachableIsSafe(k);
  }

  /** After an iteration the servo stands where the mode says: open in a pour; at
      the tested pulse from the iteration that takes a test request and unmoved
      while the test is pending and unexpired; closed when nothing is under way,
      if the servo is calibrated and the closing write works. */
  lemma ServoFollowsMode(k: Tap, e: Env)
    requires Reachable(k) && !k.updating
    ensures var n, a := k.Step(e), Accepted(k, e);
            && (n.Pouring() ==> n.servo == n.settings.openUs)
            && (!n.Active() && n.settings.servoCalibrated && SettleSite in e.pwmOk ==> n.servo == n.settings.closedUs)
            && (n.deadline != 0 && a != [] ==> a[0].kind == Test && (ActionSite in e.pwmOk ==> n.servo == a[0].pulse))
            && (n.deadline != 0 && a == [] ==>
                  k.deadline == n.deadline && n.servo == k.servo && Elapsed(e.Now(), n.deadline) >= WORD / 2)
            && n.stopArmed == n.Active() && n.testActive == (n.deadline != 0)
  {
    hide Tap.Settled, ControlMoves, Accepted, Rec.RecorderState.Observe;
    ReachableIsSafe(k);
    IterationSettles(k, e);
  }

  /** A stop always wins: an iteration that finds a stop request, a press during
      an operation or a lock ends with nothing under way, no action queued, the
      contact cancelled, and the servo closed if the write works. */
  lemma StopWins(k: Tap, e: Env)
    requires Reachable(k) && !k.updating && k.Stops(e)
    ensures var n := k.Step(e);
            !n.Active() && n.queue == [] && n.button.blocked && !n.stopRequested
            && (StopSite in e.pwmOk ==> n.servo == n.settings.closedUs)
  {
    hide Tap.Settled, ControlMoves, Accepted, Rec.RecorderState.Observe;
    ReachableIsSafe(k);
    IterationSettles(k, e);
  }

  /** While a firmware update runs, every iteration ends idle and closed, with no action
      waiting and no flag left for the display. */
  lemma UpdateStaysClosed(k: Tap, e: Env)
    requires Reachable(k) && k.updating
    ensures var n := k.Step(e);
            !n.Active() && n.updateClosed == (n.servo == n.settings.closedUs)
            && (UpdateSite in e.pwmOk ==> n.updateClosed)
            && n.queue == [] && !n.stopArmed && !n.testActive && !n.stopRequested
  {
    hide Tap.Supervise, Tap.PollButton, Tap.CloseForUpdate;
    UpdateDropsActions(k, e);
    ReachableIsSafe(k);
    UpdateKeeps(k, e);
  }

  predicate LockedThroughout(e: Env) {
    e.lockButton && e.lockStop && e.lockCancel && e.lockAction && e.lockHold
  }

  /** An iteration with the lock held throughout ends with nothing under way,
      except what the web started (see `WebFlagIsHonest`). */
  lemma LockLeavesOnlyWebOperations(k: Tap, e: Env)
    requires Reachable(k) && LockedThroughout(e)
    ensures k.Step(e).Active() ==> k.Step(e).web
  {
    hide Tap.Settled, Tap.Supervise, Tap.PollButton, Tap.CloseForUpdate, Tap.ButtonEvent, ControlMoves,
         Rec.RecorderState.Observe, Tap.Checked;
    ReachableIsSafe(k);
    if k.updating {
      UpdateKeeps(k, e);
    } else {
      IterationSettles(k, e);
    }
  }

  /** This event carries out a web action that starts an operation. */
  predicate StartsWebOperation(k: Tap, event: Event) {
    event.Iterate? && !k.updating && Accepted(k, event.e) != [] &&
    Accepted(k, event.e)[0].fromWeb && Accepted(k, event.e)[0].kind != Close && k.Apply(event).Active()
  }

  /** The web flag is never stale: when it is set, some earlier iteration carried
      out a web action that started an operation, and since then an operation has
      been under way at every moment and the flag has stayed set. */
  lemma {:induction false} WebFlagIsHonest(boot: Boot, events: seq<Event>)
    requires boot.Valid() && After(boot.State(), events).web
    ensures exists i :: WebOperationSince(boot.State(), events, i)
    decreases |events|
  {
    hide Tap.Apply, StartsWebOperation;
    var b := boot.State();
    BootIsSafe(boot);
    var last := |events| - 1;
    AtPrefix(b, events, last);
    var k := At(b, events, last);
    RunIsSafe(boot, events[..last]);
    RunIsSafe(boot, events);
    if StartsWebOperation(k, events[last]) {
      assert WebOperationSince(b, events, last);
    } else {
      WebFlagStays(k, events[last]);
      WebFlagIsHonest(boot, events[..last]);
      var i :| WebOperationSince(b, events[..last], i);
      assert At(b, events[..last], i) == At(b, events, i);
      assert WebOperationSince(b, events, i);
    }
  }

  /** Event `i` starts a web operation, and ever since something has been under
      way and the web flag set. */
  ghost predicate WebOperationSince(b: Tap, events: seq<Event>, i: nat) {
    && i < |events| && StartsWebOperation(At(b, events, i), events[i])
    && forall j :: i < j <= |events| ==> At(b, events, j).Active() && At(b, events, j).web
  }

  lemma WebFlagStays(k: Tap, event: Event)
    requires Inv(k) && k.Apply(event).web && !StartsWebOperation(k, event)
    ensures k.web
  {
    hide Tap.Settled, Tap.Supervise, Tap.PollButton, Tap.CloseForUpdate, Tap.ButtonEvent, ControlMoves, Rec.RecorderState.Observe,
         Accepted;
    ApplyKeeps(k, event);
    if event.Iterate? && !k.updating {
      IterationSettles(k, event.e);
    } else if event.Iterate? {
      UpdateKeeps(k, event.e);
    }
  }

  // ------------------------------------------------------------- the history

  /** With the partition there, recording is on after an iteration exactly when a
      pour is active; a pour is handed to the writer by the iteration that ends
      it, and by no other; and while a save is pending the recorder's buffer is
      left alone. */
  lemma RecordingFollowsPour(k: Tap, e: Env)
    requires Reachable(k) && !k.updating && k.recorder.available
    ensures var n := k.Step(e);
            && n.recorder.recording == n.Pouring()
            && ((!k.SavingRead(e, 3) && n.recorder.saving) <==> (k.Pouring() && !n.Pouring()))
            && (k.SavingRead(e, 3) ==> n.recorder == k.recorder)
  {
    hide Tap.Settled, ControlMoves, Accepted;
    ReachableIsSafe(k);
    IterationSettles(k, e);
    var n := k.Settled(e);
    RecordKeeps(n.WriterSeen(e).recorder, k.Pouring(),
                n.Observation(e, k.ButtonEvent(e), k.Pouring(), k.hold.pouring));
  }

  /** Requests between iterations neither start nor end a pour, and touch the
      recorder only to clear the saving flag. */
  lemma RequestsLeavePoursAlone(k: Tap, event: Event)
    requires Reachable(k) && !event.Iterate?
    ensures var n := k.Apply(event);
            && n.Pouring() == k.Pouring() && n.deadline == k.deadline
            && n.recorder == k.recorder.(saving := k.recorder.saving && !event.WriterDone?)
            && (k.Active() ==> n.settings == k.settings && n.half == k.half && n.updating == k.updating)
  {
    hide Tap.Step, Recording, Settings.Valid, Settings.ValidHalfTarget, Accepted, Rec.RecorderState.Observe;
    ReachableIsSafe(k);
    QuietIsIdle(k);
  }

  lemma QuietIsIdle(k: Tap)
    requires Inv(k)
    ensures k.Quiet() ==> !k.Active()
  {
  }

  /** Settings within the limits of the firmware, and a half target that is off or lies
      between the cutoff and the upper end of the fill range. */
  predicate WithinLimits(c: Settings, half: int) {
    && c.version == 1
    && 500 <= c.closedUs <= 2500 && 500 <= c.openUs <= 2500 && (c.servoCalibrated ==> c.openUs != c.closedUs)
    && 20 <= c.stopMm && c.stopMm < c.minMm && c.minMm < c.maxMm && c.maxMm + 20 < c.trayMm
    && 50 <= c.trayMm <= 2000 && 1 <= c.stableMm <= 100 && 10 <= c.jumpMm <= 500
    && 150 <= c.staleMs <= 500 && 1000 <= c.maxPourMs <= 120_000
    && (half == 0 || (c.stopMm < half && half < c.maxMm))
  }

  /** New settings and a new half target are taken exactly when nothing is under way, no
      save and no update is going on, they are within the limits, and they could be
      stored; then the machine starts collecting readings anew and waiting actions are
      dropped. Otherwise nothing changes. */
  lemma SettingsAreTakenExactlyWhen(k: Tap, next: Settings, half: int, saved: bool)
    requires Reachable(k)
    ensures var n := k.Apply(Configure(next, half, saved));
            if !k.Active() && !k.updating && !k.recorder.saving && WithinLimits(next, half) && saved
            then n.settings == next && n.half == half && n.control.count == 0 && n.queue == [] && n.activeStop == next.stopMm
                 && !n.Active() && n.servo == k.servo && n.recorder == k.recorder && n.hold == k.hold && n.button == k.button
            else n == k
  {
    ReachableIsSafe(k);
  }

  /** A firmware update begins exactly when nothing is under way, no save and no other
      update is going on, and the foam recording is off; one that fails leaves an idle
      tap that collects readings anew. Both drop the waiting actions. */
  lemma UpdateBeginsExactlyWhen(k: Tap, foamActive: bool)
    requires Reachable(k)
    ensures var n := k.Apply(BeginUpdate(foamActive));
            if !k.Active() && !k.updating && !k.recorder.saving && !foamActive
            then n == k.(updating := true, updateClosed := false, queue := []) else n == k
    ensures var n := k.Apply(FailUpdate);
            if k.updating
            then !n.updating && !n.updateClosed && n.queue == [] && !n.Active() && n.control.count == 0 && n.servo == k.servo
                 && n.settings == k.settings && n.half == k.half && n.recorder == k.recorder
            else n == k
  {
    hide Settings.Valid;
    ReachableIsSafe(k);
  }

  /** The settings in use are within the limits at all times. */
  lemma SettingsStayWithinLimits(k: Tap)
    requires Reachable(k)
    ensures WithinLimits(k.settings, 0)
  {
    ReachableIsSafe(k);
  }

  // ----------------------------------------------------- the servo-test timer

  /** A test that the controller takes is timed exactly when its deadline, two
      seconds on, is not the counter value 0 that means "none". In that one
      millisecond of 2^32 nothing stays pending, and a calibrated servo is closed
      in the same iteration. */
  lemma TestIsTimedUnlessDeadlineIsZero(k: Tap, e: Env)
    requires Reachable(k) && !k.updating
    requires Accepted(k, e) != [] && Accepted(k, e)[0].kind == Test
    ensures k.Step(e).testActive <==> Wrap(e.t + TEST_MS) != 0
    ensures !k.Step(e).testActive && k.settings.servoCalibrated && SettleSite in e.pwmOk ==>
              k.Step(e).servo == k.settings.closedUs
  {
    hide Tap.Checked, ControlMoves, Rec.RecorderState.Observe, Tap.TestAction, Tap.Settle, Tap.Stops, Tap.ButtonEvent, Tap.Accepts;
    ReachableIsSafe(k);
    ChecksSettle(k, e);
    IterationSettles(k, e);
    var c, ev := k.Checked(e), k.ButtonEvent(e);
    var taken := c.Taken();
    AcceptedTestIsFree(c, e, Accepted(k, e)[0]);
    TestKeeps(taken, e, Accepted(k, e)[0]);
    var acted := c.Act(e, ev, k.Pouring(), k.Stops(e));
    assert acted == taken.TestAction(e, Accepted(k, e)[0]);
    SettleKeeps(acted, e);
  }

  lemma AcceptedTestIsFree(c: Tap, e: Env, a: Action)
    requires Sound(c) && c.Accepts(e, a) && a.kind == Test
    ensures Sound(c.Taken()) && !c.Taken().Pouring() && c.Taken().Accepts(e, a)
  {
  }
}
