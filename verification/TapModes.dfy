/** One iteration of the controller as a step of a machine with four modes. What
    starts, goes on and ends, and with what target, is said here in terms of the
    inputs alone; the controller is proved to do exactly that. */
module TapModes {
  import opened Clock
  import opened TapTypes
  import opened PourControl
  import opened TapController
  import opened TapSafety
  import opened TapTheorems
  import Gesture = ButtonGesture
  import Rec = PourRecorder

  datatype Mode =
    | Idle
    | Auto(started: uint32, c: Settings, web: bool)
    | Hold(started: uint32)
    | Testing(deadline: uint32, web: bool)

  function ModeOf(k: Tap): Mode {
    if k.control.pouring then Auto(k.control.started, k.selected, k.web)
    else if k.hold.pouring then Hold(k.hold.started)
    else if k.deadline != 0 then Testing(k.deadline, k.web)
    else Idle
  }

  // ----------------------------------------------------------- the mode machine

  /** What is under way goes on, if nothing stops it. */
  predicate GoesOn(k: Tap, e: Env) {
    match ModeOf(k)
    case Idle => false
    case Auto(_, c, _) => k.control.Update(c, e.sample, e.Now()).pouring
    case Hold(started) => !e.high && Elapsed(e.Now(), started) < k.settings.maxPourMs
    case Testing(deadline, _) => Elapsed(e.Now(), deadline) >= WORD / 2
  }

  /** What the button reports; a press while anything is busy is never a gesture. */
  function Contact(k: Tap, e: Env): Gesture.ButtonEvent {
    var busy := ModeOf(k) != Idle || e.setupButton || e.lockButton || k.updating || (k.recorder.saving && e.writerAt > 0);
    k.button.Event(e.high, e.Now(), busy)
  }

  /** A stop was requested, or the button or the lock ends what is under way; the
      lock leaves alone what the web started. */
  predicate Stopped(k: Tap, e: Env) {
    || k.stopRequested
    || (ModeOf(k) != Idle && (Contact(k, e).pressed || (e.lockStop && !k.web)))
  }

  lemma ContactIsButton(k: Tap, e: Env)
    ensures Contact(k, e) == k.ButtonEvent(e) && Stopped(k, e) == k.Stops(e)
  {
    hide Gesture.ButtonState.Event;
  }

  /** The action this iteration has before it: a short press, or the oldest request. */
  function Wanted(k: Tap, e: Env): seq<Action> {
    if Contact(k, e).shortPress then [Action(Start, 0, false)]
    else if k.queue == [] then [] else [k.queue[0]]
  }

  predicate Allowed(k: Tap, e: Env, a: Action) {
    && (e.lockAction ==> a.fromWeb || a.kind == Close)
    && (a.kind == Test ==> !SavingNow(k, e) && !(k.Pouring() && GoesOn(k, e)))
    && (a.kind == Start || a.kind == StartHalf ==> !SavingNow(k, e) && !GoesOn(k, e) && !e.setupStart)
  }

  predicate SavingNow(k: Tap, e: Env) { k.recorder.saving && e.writerAt > 1 }

  /** The cutoff of a start: the half mark or the full one. */
  function CutoffOf(k: Tap, a: Action): int { if a.kind == StartHalf then k.half else k.settings.stopMm }

  /** The machine is ready, this reading included, and the cup is below the mark. */
  predicate CupReady(k: Tap, e: Env, a: Action) {
    var c, x, mark := k.settings, e.sample, CutoffOf(k, a);
    && k.control.Update(c, x, e.Now()).Ready(c, e.Now())
    && x.valid && Elapsed(e.Now(), x.at) <= c.staleMs
    && c.stopMm <= mark < c.maxMm && mark < x.mm && mark < x.StableDistance()
    && (a.kind == StartHalf ==> mark != 0 && c.stopMm < mark)
  }

  /** A pour can only begin with the servo opened. */
  predicate Opens(k: Tap, e: Env, site: Site) { k.servo == k.settings.openUs || site in e.pwmOk }

  predicate HoldBegins(k: Tap, e: Env) {
    && Contact(k, e).longPress && k.queue == [] && !e.lockHold && !e.setupHold
    && !(k.recorder.saving && e.writerAt > 2) && k.settings.servoCalibrated && Opens(k, e, HoldSite)
  }

  function AfterAction(k: Tap, e: Env, a: Action): Mode {
    match a.kind
    case Close => Idle
    case Test => if Wrap(e.t + 2000) == 0 then Idle else Testing(Wrap(e.t + 2000), a.fromWeb)
    case _ =>
      if ModeOf(k).Idle? && CupReady(k, e, a) && Opens(k, e, ActionSite)
      then Auto(e.Now(), k.settings.(stopMm := CutoffOf(k, a)), a.fromWeb)
      else Idle
  }

  function NextMode(k: Tap, e: Env): Mode {
    if k.updating || Stopped(k, e) then Idle
    else if Wanted(k, e) != [] && Allowed(k, e, Wanted(k, e)[0]) then AfterAction(k, e, Wanted(k, e)[0])
    else if GoesOn(k, e) then ModeOf(k)
    else if ModeOf(k).Idle? && HoldBegins(k, e) then Hold(e.Now())
    else Idle
  }

  // ---------------------------------------------------------------- the checks

  /** The state after stops and deadlines, of an iteration without a stop. */
  ghost predicate CheckedTo(k: Tap, e: Env, c: Tap) {
    && c.queue == k.queue && c.selected == k.selected && c.web == k.web && c.recorder == k.recorder
    && c.settings == k.settings && c.half == k.half
    && (if GoesOn(k, e) then ModeOf(c) == ModeOf(k) && c.servo == k.servo else ModeOf(c) == Idle)
    && (if ModeOf(k).Idle? then c.control == k.control.Update(k.settings, e.sample, e.Now()) && c.servo == k.servo
        else GoesOn(k, e) || c.control.count == 0)
  }

  lemma SuperviseExactly(k: Tap, e: Env)
    requires Sound(k)
    ensures var s := k.Supervise(e, k.hold.pouring);
            && s.queue == k.queue && s.selected == k.selected && s.web == k.web && s.recorder == k.recorder
            && s.settings == k.settings && s.half == k.half && s.servo == k.servo && s.deadline == k.deadline
            && s.stopRequested == k.stopRequested
            && s.hold.pouring == (k.hold.pouring && !e.high && Elapsed(e.Now(), k.hold.started) < k.settings.maxPourMs)
            && (s.hold.pouring ==> s.hold.started == k.hold.started)
            && (if k.hold.pouring then !s.control.pouring && s.control.count == 0
                else s.control == k.control.Update(if k.control.pouring then k.selected else k.settings, e.sample, e.Now()))
  {
    hide ControlState.Update, ControlState.Stop, Tap.Pouring, Tap.Active, Settings.Valid;
    StopKeeps(k.control, ButtonReleased);
    StopKeeps(k.hold, ButtonReleased);
    StopKeeps(k.hold, MaximumTime);
    if k.hold.pouring {
      var looked := if e.high then k.StopBoth(ButtonReleased).CancelButton().Look(e) else k;
      var timed := if looked.hold.pouring && Elapsed(e.Now(), k.hold.started) >= k.settings.maxPourMs
                   then looked.StopHold(MaximumTime) else looked;
      StopKeeps(timed.control, timed.hold.reason);
    }
  }

  lemma StopKeeps(s: ControlState, why: Reason)
    ensures var n := s.Stop(why); !n.pouring && n.count == 0 && n.reason == why && n.started == s.started
  {
  }

  lemma UpdateKeepsStart(s: ControlState, c: Settings, x: Sample, now: uint32)
    ensures var n := s.Update(c, x, now);
            n.started == s.started && (s.pouring && !n.pouring ==> n.count == 0) && (n.pouring ==> s.pouring)
  {
  }

  lemma CheckExactly(k: Tap, e: Env)
    requires Inv(k) && !k.Stops(e)
    ensures CheckedTo(k, e, k.Checked(e))
  {
    hide ControlState.Update, Tap.Supervise, Tap.Stops, Gesture.ButtonState.Update, Tap.Finish, Tap.StopTaken, Settings.Valid;
    var p := k.PollButton(e);
    PollKeeps(k, e);
    SuperviseExactly(p, e);
    UpdateKeepsStart(k.control, if k.control.pouring then k.selected else k.settings, e.sample, e.Now());
    var s := p.Supervise(e, k.hold.pouring);
    var h := s.StopTaken(e);
    TakenExactly(s, e);
    FinishExactly(h, e, k.Pouring());
  }

  lemma TakenExactly(s: Tap, e: Env)
    ensures var h := s.StopTaken(e); h == s.(button := h.button, stopRequested := false)
  {
  }

  /** Closing the servo when nothing pours moves the servo, or stops what is
      stopped already. */
  lemma ClosesOnly(k: Tap, ok: bool)
    requires !k.Pouring()
    ensures var n := k.CloseServo(ok);
            && OnlyServo(k, n) && !n.Pouring() && (n.control == k.control || n.control.count == 0)
            && (ok || k.servo == k.settings.closedUs ==> n.control == k.control && n.servo == k.settings.closedUs)
  {
    hide Tap.StopBoth;
    BothStop(k, PwmFailure);
  }

  /** The end of a pour and of a test: what is under way is left alone. */
  lemma FinishExactly(h: Tap, e: Env, was: bool)
    requires h.deadline != 0 ==> !h.Pouring()
    ensures var c := h.Finish(e, was);
            && SameRequests(h, c)
            && c.deadline == (if h.DeadlinePassed(e) then 0 else h.deadline)
            && (h.Pouring() ==> c == h)
            && (!h.Pouring() ==> !c.Pouring() && (h.control.count == 0 || h.DeadlinePassed(e) ==> c.control.count == 0))
            && (!was && !h.DeadlinePassed(e) ==> c == h)
  {
    hide Tap.CloseServo, Tap.ExpireTest, OnlyServo;
    if h.Pouring() {
      ExpireExactly(h, e);
    } else {
      EndExactly(h, e, was);
      ExpireExactly(h.EndPour(e, was), e);
    }
  }

  /** What neither the checks nor the closing of the servo touch. */
  predicate SameRequests(k: Tap, n: Tap) {
    && n.queue == k.queue && n.selected == k.selected && n.web == k.web && n.recorder == k.recorder
    && n.settings == k.settings && n.half == k.half
  }

  lemma EndExactly(h: Tap, e: Env, was: bool)
    requires !h.Pouring()
    ensures var c := h.EndPour(e, was);
            && SameRequests(h, c) && c.deadline == h.deadline && !c.Pouring() && (h.control.count == 0 ==> c.control.count == 0)
            && (!was ==> c == h)
  {
    hide Tap.CloseServo;
    ClosesOnly(h, EndSite in e.pwmOk);
  }

  lemma ExpireExactly(h: Tap, e: Env)
    requires h.deadline != 0 ==> !h.Pouring()
    ensures var c := h.ExpireTest(e);
            if h.DeadlinePassed(e) then SameRequests(h, c) && c.deadline == 0 && !c.Pouring() && c.control.count == 0 else c == h
  {
    hide Tap.CloseServo;
    if h.DeadlinePassed(e) {
      ClosesOnly(h, DeadlineSite in e.pwmOk);
    }
  }

  // ------------------------------------------------------------------ the action

  /** A short press ends a contact that was live, so nothing was under way. */
  lemma ShortPressIsIdle(k: Tap, e: Env)
    requires Inv(k) && k.ButtonEvent(e).shortPress
    ensures !k.Active() && !k.ButtonEvent(e).longPress
  {
    hide Settings.Valid;
  }

  /** The action that is carried out is the wanted one, if it is allowed. */
  lemma AcceptedExactly(k: Tap, e: Env)
    requires Inv(k)
    ensures Accepted(k, e) ==
            if !k.Stops(e) && Wanted(k, e) != [] && Allowed(k, e, Wanted(k, e)[0]) then [Wanted(k, e)[0]] else []
  {
    hide ControlState.Update, Tap.Checked, Tap.Stops, Tap.ButtonEvent, Sound, Contact, Stopped;
    ContactIsButton(k, e);
    if !k.Stops(e) {
      CheckExactly(k, e);
      if k.ButtonEvent(e).shortPress {
        ShortPressIsIdle(k, e);
      }
    }
  }

  /** With both machines stopped only a test can be under way. */
  lemma StoppedMode(t: Tap, why: Reason)
    ensures var n := t.StopBoth(why);
            && ModeOf(n) == (if t.deadline != 0 then Testing(t.deadline, t.web) else Idle)
            && n.deadline == t.deadline && n.web == t.web && n.servo == t.servo
  {
    hide ControlState.Stop;
    StopKeeps(t.control, why);
    StopKeeps(t.hold, why);
  }

  lemma ServoMode(t: Tap, us: int, ok: bool)
    ensures var n := t.SetServo(us, ok);
            && n.deadline == t.deadline && n.web == t.web
            && ModeOf(n) == if us == t.servo || ok then ModeOf(t) else if t.deadline != 0 then Testing(t.deadline, t.web) else Idle
  {
    hide Tap.StopBoth;
    StoppedMode(t, PwmFailure);
  }

  lemma CloseEnds(c: Tap, e: Env)
    ensures ModeOf(c.CloseAction(e)) == Idle
  {
    hide Tap.SetServo, Tap.StopBoth;
    StoppedMode(c.CancelButton(), ManualClose);
    ServoMode(c.CancelButton().StopBoth(ManualClose).ClearDeadline(), c.settings.closedUs, ActionSite in e.pwmOk);
    BothStop(c.CancelButton(), ManualClose);
  }

  lemma TestRuns(c: Tap, e: Env, a: Action)
    requires !c.Pouring()
    ensures ModeOf(c.TestAction(e, a)) == if Wrap(e.t + 2000) == 0 then Idle else Testing(Wrap(e.t + 2000), a.fromWeb)
  {
    hide Tap.StopBoth, ControlState.ResetReady;
    ForgetKeeps(c.control);
    ForgetKeeps(c.hold);
    BothStop(c.CancelButton().ForgetReadings(a.fromWeb), PwmFailure);
  }

  lemma ForgetKeeps(s: ControlState)
    ensures s.ResetReady().pouring == s.pouring && s.ResetReady().started == s.started && s.ResetReady().count == 0
  {
  }

  /** The machine is ready in state `s` and the cup is below the mark. */
  predicate Begins(c: Tap, e: Env, a: Action) {
    var mark := CutoffOf(c, a);
    && c.control.Ready(c.settings, e.Now())
    && e.sample.valid && Elapsed(e.Now(), e.sample.at) <= c.settings.staleMs
    && c.settings.stopMm <= mark < c.settings.maxMm && mark < e.sample.mm && mark < e.sample.StableDistance()
    && (a.kind == StartHalf ==> mark != 0 && c.settings.stopMm < mark)
  }

  lemma StartRuns(c: Tap, e: Env, a: Action)
    requires ModeOf(c) == Idle && (a.kind == Start || a.kind == StartHalf)
    ensures ModeOf(c.StartAction(e, a)) ==
            if Begins(c, e, a) && (c.servo == c.settings.openUs || ActionSite in e.pwmOk)
            then Auto(e.Now(), c.settings.(stopMm := CutoffOf(c, a)), a.fromWeb)
            else Idle
  {
    hide Tap.SetServo, Tap.Eligible, ControlState.ResetReady, ControlState.Ready, Begins;
    EligibleExactly(c, e, a);
    BeginsReady(c, e, a);
    var half := a.kind == StartHalf;
    var next := c.settings.ForTarget(c.Target(half));
    SameReady(c.control, c.settings, CutoffOf(c, a), e.Now());
    var k := c.StartControl(next, e.Now());
    var t := (if half then k.SetReason(HalfPour) else k).CancelButton().ForgetHold(a.fromWeb);
    ForgetKeeps(c.hold);
    ServoMode(t, c.settings.openUs, ActionSite in e.pwmOk);
  }

  lemma BeginsReady(c: Tap, e: Env, a: Action)
    ensures Begins(c, e, a) ==> c.control.Ready(c.settings, e.Now())
  {
    hide ControlState.Ready;
  }

  /** Another cutoff does not change the readiness. */
  lemma SameReady(s: ControlState, c: Settings, mark: int, now: uint32)
    ensures s.Ready(c.(stopMm := mark), now) <==> s.Ready(c, now)
  {
  }

  lemma EligibleExactly(c: Tap, e: Env, a: Action)
    requires a.kind == Start || a.kind == StartHalf
    ensures c.Eligible(e, a.kind == StartHalf) <==> Begins(c, e, a)
  {
    hide ControlState.Ready;
  }

  /** What the action makes of the mode. */
  lemma ActExactly(k: Tap, e: Env)
    requires Inv(k) && !k.Stops(e)
    ensures var c, ev, ran := k.Checked(e), k.ButtonEvent(e), Accepted(k, e);
            var n := c.Act(e, ev, k.Pouring(), false);
            && (if ran != [] then ModeOf(n) == AfterAction(k, e, ran[0]) else n == c.Taken() && ModeOf(n) == ModeOf(c))
            && (c.Got(ev, k.Pouring(), false) <==> Wanted(k, e) != [])
  {
    hide ControlState.Update, Tap.Checked, Tap.Stops, Tap.ButtonEvent, Tap.CloseAction, Tap.TestAction, Tap.StartAction,
         Settings.Valid, Tap.Accepts, Begins, CupReady, Contact, Stopped;
    ContactIsButton(k, e);
    CheckExactly(k, e);
    TakenAccepts(k.Checked(e), e);
    if k.ButtonEvent(e).shortPress {
      ShortPressIsIdle(k, e);
    }
    var ran := Accepted(k, e);
    if ran != [] {
      AcceptedExactly(k, e);
      var a, t := ran[0], k.Checked(e).Taken();
      match a.kind
      case Close => CloseEnds(t, e);
      case Test => TestRuns(t, e, a);
      case _ =>
        StartRuns(t, e, a);
        BeginsInTime(k, e, t, a);
    }
  }

  lemma TakenAccepts(c: Tap, e: Env)
    ensures forall a :: c.Taken().Accepts(e, a) == c.Accepts(e, a)
    ensures ModeOf(c.Taken()) == ModeOf(c)
  {
  }

  /** A machine that was not idle before is not ready now. */
  lemma BeginsInTime(k: Tap, e: Env, t: Tap, a: Action)
    requires t.settings == k.settings && t.half == k.half
    requires if ModeOf(k).Idle? then t.control == k.control.Update(k.settings, e.sample, e.Now()) else t.control.count == 0
    ensures Begins(t, e, a) <==> ModeOf(k).Idle? && CupReady(k, e, a)
  {
    hide ControlState.Update;
  }

  // ---------------------------------------------------------------- hold and rest

  lemma HoldExactly(c: Tap, e: Env, ev: Gesture.ButtonEvent, got: bool)
    requires ev.longPress && !got ==> ModeOf(c) == Idle
    ensures var n := c.HoldFill(e, ev, false, got);
            ModeOf(n) ==
            if ev.longPress && !got && c.HoldAccepted(e) && (c.servo == c.settings.openUs || HoldSite in e.pwmOk)
            then Hold(e.Now()) else ModeOf(c)
  {
    hide Tap.StopBoth, Tap.SetServo, ControlState.Stop;
    if ev.longPress && !got {
      StoppedMode(c, ManualRejected);
      var t := c.StartHold(e.Now()).StopControl(ManualFill);
      StopKeeps(c.control, ManualFill);
      ServoMode(t, c.settings.openUs, HoldSite in e.pwmOk);
    }
  }

  lemma SettleExactly(k: Tap, e: Env)
    requires !(k.control.pouring && k.hold.pouring)
    ensures ModeOf(k.Settle(e)) == ModeOf(k)
  {
    hide Tap.SetServo;
    ServoMode(k, k.settings.closedUs, SettleSite in e.pwmOk);
  }

  // -------------------------------------------------------------- the whole iteration

  /** Refinement: every iteration of the controller, with its phases, its two pour
      machines and its queue, takes exactly the step of the mode machine. */
  lemma IterationFollowsModes(k: Tap, e: Env)
    requires Reachable(k)
    ensures ModeOf(k.Step(e)) == NextMode(k, e)
  {
    hide Tap.Settled, Tap.Supervise, Tap.PollButton, Tap.CloseForUpdate, NextMode, Tap.Stops, ControlMoves, Accepted,
         Rec.RecorderState.Observe;
    ReachableIsSafe(k);
    if k.updating {
      UpdateKeeps(k, e);
      UpdateIsIdle(k, e);
    } else {
      var n := k.Settled(e);
      if k.Stops(e) {
        IterationSettles(k, e);
        StopIsIdle(k, e);
      } else {
        NoStopFollows(k, e);
      }
      RecordKeepsMode(n, e, n.Observation(e, k.ButtonEvent(e), k.Pouring(), k.hold.pouring));
    }
  }

  lemma UpdateIsIdle(k: Tap, e: Env)
    ensures k.updating ==> NextMode(k, e) == Idle
  {
  }

  lemma StopIsIdle(k: Tap, e: Env)
    ensures k.Stops(e) ==> NextMode(k, e) == Idle
  {
    hide Tap.Stops, Stopped;
    ContactIsButton(k, e);
  }

  lemma RecordKeepsMode(n: Tap, e: Env, o: Rec.Observation)
    ensures ModeOf(n.Record(e, o)) == ModeOf(n)
  {
  }

  lemma NoStopFollows(k: Tap, e: Env)
    requires Inv(k) && !k.updating && !k.Stops(e)
    ensures ModeOf(k.Settled(e)) == NextMode(k, e)
  {
    hide ControlState.Update, Tap.Checked, Tap.Stops, Tap.ButtonEvent, Tap.Act, Tap.HoldFill, Tap.Settle, Tap.Accepts,
         AfterAction, Allowed, Accepted, ControlMoves, Settings.Valid, HoldBegins, Tap.HoldAccepted, ActDone, HoldDone,
         Contact, Stopped;
    ContactIsButton(k, e);
    var c, ev, was := k.Checked(e), k.ButtonEvent(e), k.Pouring();
    CheckExactly(k, e);
    AcceptedExactly(k, e);
    ActExactly(k, e);
    ChecksSettle(k, e);
    var acted, got := c.Act(e, ev, was, false), c.Got(ev, was, false);
    HoldExactly(acted, e, ev, got);
    HeldIsSound(k, e);
    SettleExactly(acted.HoldFill(e, ev, false, got), e);
    if ev.shortPress {
      ShortPressIsIdle(k, e);
    }
    HoldNeeds(k, e);
    if ev.longPress && !got {
      HoldMatches(k, e, c);
    }
  }

  lemma HeldIsSound(k: Tap, e: Env)
    requires Inv(k) && !k.Stops(e)
    ensures var c, ev := k.Checked(e), k.ButtonEvent(e);
            var held := c.Act(e, ev, k.Pouring(), false).HoldFill(e, ev, false, c.Got(ev, k.Pouring(), false));
            !(held.control.pouring && held.hold.pouring)
  {
    hide Tap.Checked, Tap.Stops, Tap.ButtonEvent, Tap.Act, Tap.HoldFill;
    var c, ev, was := k.Checked(e), k.ButtonEvent(e), k.Pouring();
    ChecksSettle(k, e);
    ActKeeps(c, e, ev, was, false);
    HoldKeeps(c.Act(e, ev, was, false), e, ev, false, c.Got(ev, was, false));
  }

  lemma HoldNeeds(k: Tap, e: Env)
    ensures HoldBegins(k, e) ==> k.ButtonEvent(e).longPress && k.queue == []
  {
    hide Tap.ButtonEvent, Contact;
    ContactIsButton(k, e);
  }

  lemma HoldMatches(k: Tap, e: Env, c: Tap)
    requires CheckedTo(k, e, c) && !k.Active() && !c.Active() && k.ButtonEvent(e).longPress && k.queue == []
    ensures c.Taken().HoldAccepted(e) && (c.servo == c.settings.openUs || HoldSite in e.pwmOk) <==> HoldBegins(k, e)
  {
    hide ControlState.Update, Tap.ButtonEvent, Contact;
    ContactIsButton(k, e);
  }

  /** A start pours to the mark its action names, the half one or the full one; and
      it does start when the machine is ready, the cup is below that mark and the
      servo opens. */
  lemma StartPoursToItsMark(k: Tap, e: Env, a: Action)
    requires Reachable(k) && !k.updating && !k.control.pouring && Accepted(k, e) == [a]
    ensures var n := k.Step(e);
            n.control.pouring ==>
              && (a.kind == Start || a.kind == StartHalf)
              && n.selected == k.settings.(stopMm := n.selected.stopMm)
              && n.selected.stopMm == (if a.kind == StartHalf then k.half else k.settings.stopMm)
    ensures var n, mark := k.Step(e), if a.kind == StartHalf then k.half else k.settings.stopMm;
            n.control.pouring <==>
              && (a.kind == Start || a.kind == StartHalf) && !k.Active()
              && k.control.Update(k.settings, e.sample, e.Now()).Ready(k.settings, e.Now())
              && e.sample.valid && Elapsed(e.Now(), e.sample.at) <= k.settings.staleMs
              && mark < e.sample.mm && mark < e.sample.StableDistance()
              && (if a.kind == StartHalf then k.settings.stopMm < mark < k.settings.maxMm else true)
              && (k.servo == k.settings.openUs || ActionSite in e.pwmOk)
  {
    hide Tap.Step, Tap.Stops, Accepted, Contact, Stopped, Wanted, Allowed, ControlState.Update;
    ReachableIsSafe(k);
    ContactIsButton(k, e);
    AcceptedExactly(k, e);
    IterationFollowsModes(k, e);
    MarksArePositive(k.settings);
  }

  lemma MarksArePositive(c: Settings)
    requires c.Valid()
    ensures 0 < c.stopMm < c.maxMm
  {
  }

  // -------------------------------------------------------- what else an iteration does

  lemma StepIsSettled(k: Tap, e: Env)
    ensures !k.updating ==> k.Step(e) == k.Settled(e).(recorder := k.Step(e).recorder)
  {
    hide Tap.Settled, Rec.RecorderState.Observe, Tap.Observation;
  }

  lemma ServoOnly(t: Tap, us: int, ok: bool)
    ensures OnlyServo(t, t.SetServo(us, ok))
  {
    hide Tap.StopBoth;
    BothStop(t, PwmFailure);
  }

  /** An action takes nothing more from the queue, and only a start selects. */
  lemma RunLeaves(c: Tap, e: Env, a: Action)
    ensures c.Run(e, a).queue == c.queue
    ensures c.control.count == 0 || a.kind == Close || a.kind == Test ==> c.Run(e, a).selected == c.selected
  {
    hide Tap.CloseAction, Tap.TestAction, Tap.StartAction;
    match a.kind
    case Close => CloseLeaves(c, e);
    case Test => TestLeaves(c, e, a);
    case _ => StartLeaves(c, e, a);
  }

  lemma CloseLeaves(c: Tap, e: Env)
    ensures c.CloseAction(e).queue == c.queue && c.CloseAction(e).selected == c.selected
  {
    hide Tap.SetServo, Tap.StopBoth;
    BothStop(c.CancelButton(), ManualClose);
    ServoOnly(c.CancelButton().StopBoth(ManualClose).ClearDeadline(), c.settings.closedUs, ActionSite in e.pwmOk);
  }

  lemma TestLeaves(c: Tap, e: Env, a: Action)
    ensures c.TestAction(e, a).queue == c.queue && c.TestAction(e, a).selected == c.selected
  {
    hide Tap.SetServo;
    ServoOnly(c.CancelButton().ForgetReadings(a.fromWeb), a.pulse, ActionSite in e.pwmOk);
  }

  lemma StartLeaves(c: Tap, e: Env, a: Action)
    ensures c.StartAction(e, a).queue == c.queue
    ensures c.control.count == 0 ==> c.StartAction(e, a).selected == c.selected
  {
    hide Tap.SetServo, Tap.Eligible, ControlState.Start, ControlState.ResetReady, ControlState.Ready;
    var half := a.kind == StartHalf;
    EligibleNeedsReadings(c, e, half);
    var k := c.StartControl(c.settings.ForTarget(c.Target(half)), e.Now());
    var t := (if half then k.SetReason(HalfPour) else k).CancelButton().ForgetHold(a.fromWeb);
    ServoOnly(t, c.settings.openUs, ActionSite in e.pwmOk);
  }

  lemma EligibleNeedsReadings(c: Tap, e: Env, half: bool)
    ensures c.Eligible(e, half) ==> c.control.count >= 5
  {
  }

  lemma HoldLeaves(c: Tap, e: Env, ev: Gesture.ButtonEvent, stop: bool, got: bool)
    ensures c.HoldFill(e, ev, stop, got).queue == c.queue
    ensures !ev.longPress ==> c.HoldFill(e, ev, stop, got) == c
  {
    hide Tap.SetServo, Tap.StopBoth;
    BothStop(c, ManualRejected);
    ServoOnly(c.StartHold(e.Now()).StopControl(ManualFill), c.settings.openUs, HoldSite in e.pwmOk);
  }

  lemma SettleLeaves(c: Tap, e: Env)
    ensures c.Settle(e).queue == c.queue && c.Settle(e).selected == c.selected
  {
    hide Tap.SetServo;
    ServoOnly(c, c.settings.closedUs, SettleSite in e.pwmOk);
  }

  /** Each iteration without a stop takes one request off the queue, whether it is
      carried out or not; a stop empties it. */
  lemma QueueAdvances(k: Tap, e: Env)
    requires Reachable(k) && !k.updating
    ensures k.Step(e).queue == if Stopped(k, e) || k.queue == [] then [] else k.queue[1..]
  {
    hide Tap.Checked, Tap.Run, Tap.HoldFill, Tap.Settle, Tap.Stops, Tap.ButtonEvent, Tap.Accepts, Contact, Stopped, CheckedTo,
         Rec.RecorderState.Observe;
    ReachableIsSafe(k);
    ContactIsButton(k, e);
    ChecksSettle(k, e);
    var c, ev, was, stop := k.Checked(e), k.ButtonEvent(e), k.Pouring(), k.Stops(e);
    if !stop {
      CheckExactly(k, e);
      CheckedQueue(k, e, c);
    }
    var a := c.Pending(ev, was, stop);
    RunLeaves(c.Taken(), e, a);
    var acted, got := c.Act(e, ev, was, stop), c.Got(ev, was, stop);
    HoldLeaves(acted, e, ev, stop, got);
    SettleLeaves(acted.HoldFill(e, ev, stop, got), e);
  }

  lemma CheckedQueue(k: Tap, e: Env, c: Tap)
    requires CheckedTo(k, e, c)
    ensures c.queue == k.queue && c.selected == k.selected && c.settings == k.settings
  {
  }

  lemma CheckedSelects(k: Tap, e: Env)
    requires Inv(k)
    ensures k.Checked(e).selected == k.selected
  {
    hide Tap.Supervise, Tap.Stops, Tap.Finish, Tap.StopTaken, Tap.SetServo, Gesture.ButtonState.Update;
    PollKeeps(k, e);
    var p := k.PollButton(e);
    SuperviseExactly(p, e);
    var s := p.Supervise(e, k.hold.pouring);
    TakenExactly(s, e);
    HaltSelects(s, e, k.Pouring(), k.LockStops(e), k.Stops(e));
    FinishSelects(s.Halt(e, k.Pouring(), k.LockStops(e), k.Stops(e)), e, k.Pouring());
  }

  lemma HaltSelects(s: Tap, e: Env, was: bool, lockStop: bool, stop: bool)
    ensures s.Halt(e, was, lockStop, stop).selected == s.selected
  {
    hide Tap.SetServo, Tap.StopBoth, Tap.StopTaken, Tap.Pouring, Tap.Active, Tap.HaltNow;
    TakenExactly(s, e);
    var t := s.StopTaken(e);
    var why := if lockStop then TapLocked else if was || t.deadline != 0 then EmergencyStop else TapClosed;
    HaltNowSelects(t, e, why);
  }

  lemma HaltNowSelects(t: Tap, e: Env, why: Reason)
    ensures t.HaltNow(e, why).selected == t.selected
  {
    hide Tap.SetServo, Tap.StopBoth;
    BothStop(t.CancelButton(), why);
    ServoOnly(t.CancelButton().StopBoth(why).DropRequests(), t.settings.closedUs, StopSite in e.pwmOk);
  }

  lemma FinishSelects(h: Tap, e: Env, was: bool)
    ensures h.Finish(e, was).selected == h.selected
  {
    hide Tap.SetServo, ControlState.Stop;
    ServoOnly(h, h.settings.closedUs, EndSite in e.pwmOk);
    ServoOnly(h.EndPour(e, was), h.settings.closedUs, DeadlineSite in e.pwmOk);
  }

  /** An automatic pour keeps its settings up to the iteration that ends it. */
  lemma PourKeepsSettings(k: Tap, e: Env)
    requires Inv(k) && !k.updating && k.control.pouring
    ensures k.Settled(e).selected == k.selected && k.Settled(e).settings == k.settings
  {
    hide Tap.Checked, Tap.Run, Tap.HoldFill, Tap.Settle, Tap.Stops, CheckedTo, Gesture.ButtonState.Event, ControlMoves,
         Accepted, Settings.Valid;
    ChecksSettle(k, e);
    IterationSettles(k, e);
    var c, ev, was, stop := k.Checked(e), k.ButtonEvent(e), k.Pouring(), k.Stops(e);
    CheckedSelects(k, e);
    RunLeaves(c.Taken(), e, c.Pending(ev, was, stop));
    var acted, got := c.Act(e, ev, was, stop), c.Got(ev, was, stop);
    HoldLeaves(acted, e, ev, stop, got);
    SettleLeaves(acted.HoldFill(e, ev, stop, got), e);
  }

  /** The machine collects readings as long as nothing else is asked of the tap: with
      nothing carried out, or a start rejected, it is where this look has taken it. */
  lemma ReadingsAreKept(k: Tap, e: Env)
    requires Reachable(k) && !k.updating && !Stopped(k, e) && ModeOf(k) == Idle && !Contact(k, e).longPress
    requires Accepted(k, e) == [] || (Accepted(k, e)[0].kind in {Start, StartHalf} && !CupReady(k, e, Accepted(k, e)[0]))
    requires k.servo == k.settings.closedUs || SettleSite in e.pwmOk || !k.settings.servoCalibrated
    ensures var n, looked := k.Step(e).control, k.control.Update(k.settings, e.sample, e.Now());
            n == if Accepted(k, e) == [] then looked else looked.(reason := n.reason)
  {
    hide ControlState.Update, Tap.Checked, Tap.Stops, Tap.ButtonEvent, Tap.StartAction, Contact, Stopped, Tap.Settle,
         Accepted, CupReady, Begins, Settings.Valid, Rec.RecorderState.Observe, Tap.Run;
    ReachableIsSafe(k);
    ContactIsButton(k, e);
    CheckExactly(k, e);
    ActExactly(k, e);
    var c, ev, was, ran := k.Checked(e), k.ButtonEvent(e), k.Pouring(), Accepted(k, e);
    var acted := c.Act(e, ev, was, false);
    if ran != [] {
      RejectedStart(k, e);
    }
    HoldLeaves(acted, e, ev, false, c.Got(ev, was, false));
    SettledQuietly(acted, e);
  }

  lemma SettledQuietly(k: Tap, e: Env)
    requires k.servo == k.settings.closedUs || SettleSite in e.pwmOk || !k.settings.servoCalibrated
    ensures k.Settle(e).control == k.control
  {
  }

  lemma RejectedStart(k: Tap, e: Env)
    requires Inv(k) && !k.Stops(e) && ModeOf(k) == Idle && Accepted(k, e) != []
    requires Accepted(k, e)[0].kind in {Start, StartHalf} && !CupReady(k, e, Accepted(k, e)[0])
    ensures var c := k.Checked(e); var n := c.Act(e, k.ButtonEvent(e), k.Pouring(), false);
            n == c.Taken().(control := c.control.(reason := n.control.reason))
  {
    hide ControlState.Update, Tap.Checked, Tap.Stops, Tap.ButtonEvent, CupReady, Begins, Settings.Valid, Tap.Accepts, Tap.Eligible;
    CheckExactly(k, e);
    var c, a := k.Checked(e), Accepted(k, e)[0];
    TakenAccepts(c, e);
    BeginsInTime(k, e, c.Taken(), a);
    EligibleExactly(c.Taken(), e, a);
  }

  // ------------------------------------------------------------- why a pour has ended

  /** What is said of a pour that this iteration ends, when every write works and no
      action follows: the stop comes first, then the release or the limit of a hold
      and the machine's own reason. */
  function EndReason(k: Tap, e: Env): Reason {
    if Stopped(k, e) then if e.lockStop && !k.web then TapLocked else EmergencyStop
    else if k.hold.pouring then if e.high then ButtonReleased else MaximumTime
    else k.control.Update(k.selected, e.sample, e.Now()).reason
  }

  lemma EndedPourSaysWhy(k: Tap, e: Env)
    requires Reachable(k) && !k.updating && k.Pouring() && !k.Step(e).Pouring() && Accepted(k, e) == []
    requires StopSite in e.pwmOk && EndSite in e.pwmOk && SettleSite in e.pwmOk
    ensures k.Step(e).control.reason == EndReason(k, e)
  {
    hide ControlState.Update, Tap.Checked, Tap.Stops, Tap.ButtonEvent, Tap.Settle, Tap.Run, Contact, Stopped,
         Accepted, Settings.Valid, Rec.RecorderState.Observe, Tap.Accepts, Allowed, Wanted, GoesOn, CupReady, HoldBegins,
         EndReason;
    ReachableIsSafe(k);
    ContactIsButton(k, e);
    AcceptedExactly(k, e);
    IterationFollowsModes(k, e);
    PouringIsNotLive(k, e);
    var c, ev, was, stop := k.Checked(e), k.ButtonEvent(e), k.Pouring(), k.Stops(e);
    CheckedReason(k, e);
    var acted := c.Act(e, ev, was, stop);
    if !stop {
      ActExactly(k, e);
    }
    HoldLeaves(acted, e, ev, stop, c.Got(ev, was, stop));
    SettledQuietly(acted, e);
  }

  lemma PouringIsNotLive(k: Tap, e: Env)
    requires Inv(k) && k.Pouring()
    ensures !k.ButtonEvent(e).longPress && !k.ButtonEvent(e).shortPress
  {
    hide Settings.Valid;
  }

  lemma CheckedReason(k: Tap, e: Env)
    requires Inv(k) && k.Pouring() && StopSite in e.pwmOk && EndSite in e.pwmOk
    requires NextMode(k, e) == Idle && Accepted(k, e) == []
    ensures k.Checked(e).control.reason == EndReason(k, e)
  {
    hide ControlState.Update, Tap.Supervise, Tap.Stops, Gesture.ButtonState.Update, Tap.Finish, Tap.Halt, Contact, Stopped,
         Accepted, Wanted, Settings.Valid;
    ContactIsButton(k, e);
    AcceptedExactly(k, e);
    PollKeeps(k, e);
    var p := k.PollButton(e);
    SuperviseExactly(p, e);
    if k.hold.pouring {
      SuperviseReason(p, e);
    }
    var s := p.Supervise(e, k.hold.pouring);
    HaltReason(s, e, k.Pouring(), k.LockStops(e), k.Stops(e));
    FinishReason(s.Halt(e, k.Pouring(), k.LockStops(e), k.Stops(e)), e, k.Pouring());
  }

  lemma SuperviseReason(k: Tap, e: Env)
    requires Sound(k) && k.hold.pouring
    ensures e.high ==> k.Supervise(e, true).control.reason == ButtonReleased
    ensures !e.high && Elapsed(e.Now(), k.hold.started) >= k.settings.maxPourMs ==>
              k.Supervise(e, true).control.reason == MaximumTime
  {
    hide ControlState.Update, Settings.Valid;
  }

  lemma HaltReason(s: Tap, e: Env, was: bool, lockStop: bool, stop: bool)
    requires StopSite in e.pwmOk && was && s.deadline == 0
    ensures var n := s.Halt(e, was, lockStop, stop);
            && n.deadline == 0 && n.settings == s.settings
            && if stop then !n.Pouring() && n.control.reason == (if lockStop then TapLocked else EmergencyStop)
               else n.control == s.control && n.hold == s.hold
  {
    hide Tap.StopTaken, ControlState.Stop;
    TakenExactly(s, e);
    var t := s.StopTaken(e);
    var why := if lockStop then TapLocked else EmergencyStop;
    StopKeeps(t.control, why);
    StopKeeps(t.hold, why);
  }

  lemma FinishReason(h: Tap, e: Env, was: bool)
    requires EndSite in e.pwmOk && h.deadline == 0
    ensures h.Finish(e, was).control == h.control
  {
  }

  /** What is said of an action that is carried out, when the servo writes work. */
  function ActionMessage(k: Tap, e: Env, a: Action): Reason {
    match a.kind
    case Close => ManualClose
    case Test => ServoTest
    case Start => if ModeOf(k).Idle? && CupReady(k, e, a) then PouringNow else StartRejected
    case StartHalf => if ModeOf(k).Idle? && CupReady(k, e, a) then HalfPour else HalfUnavailable
  }

  lemma ActionSaysWhat(k: Tap, e: Env, a: Action)
    requires Reachable(k) && !k.updating && Accepted(k, e) == [a]
    requires ActionSite in e.pwmOk && SettleSite in e.pwmOk
    ensures k.Step(e).control.reason == ActionMessage(k, e, a)
  {
    hide ControlState.Update, Tap.Checked, Tap.Stops, Tap.ButtonEvent, Tap.Run, Contact, Stopped, Accepted, Settings.Valid,
         Rec.RecorderState.Observe, Tap.Accepts, CupReady, Begins, Tap.Settle, Tap.Act, Tap.HoldFill;
    ReachableIsSafe(k);
    var c, ev, was, stop := k.Checked(e), k.ButtonEvent(e), k.Pouring(), k.Stops(e);
    RanIs(k, e, a);
    CheckExactly(k, e);
    if a.kind == Start || a.kind == StartHalf {
      BeginsInTime(k, e, c.Taken(), a);
    }
    RunSays(c.Taken(), e, a);
    var acted := c.Act(e, ev, was, stop);
    GotHoldsNothing(acted, e, ev, stop);
    SettledQuietly(acted, e);
  }

  lemma GotHoldsNothing(c: Tap, e: Env, ev: Gesture.ButtonEvent, stop: bool)
    ensures c.HoldFill(e, ev, stop, true) == c
  {
  }

  lemma RanIs(k: Tap, e: Env, a: Action)
    requires Inv(k) && Accepted(k, e) == [a]
    ensures var c := k.Checked(e);
            && !k.Stops(e) && c.Got(k.ButtonEvent(e), k.Pouring(), false)
            && (a.kind != Close && a.kind != Test ==> ModeOf(c.Taken()) == Idle)
            && c.Act(e, k.ButtonEvent(e), k.Pouring(), false) == c.Taken().Run(e, a)
            && (!ModeOf(k).Idle? && (a.kind == Start || a.kind == StartHalf) ==> c.control.count == 0)
  {
    hide ControlState.Update, Tap.Checked, Tap.Stops, Tap.ButtonEvent, Tap.Run, Contact, Stopped, Settings.Valid, Tap.Accepts,
         GoesOn;
    AcceptedExactly(k, e);
    CheckExactly(k, e);
    TakenAccepts(k.Checked(e), e);
  }

  lemma RunSays(c: Tap, e: Env, a: Action)
    requires ActionSite in e.pwmOk && (a.kind != Close && a.kind != Test ==> ModeOf(c) == Idle)
    ensures c.Run(e, a).control.reason ==
            match a.kind
            case Close => ManualClose
            case Test => ServoTest
            case Start => if Begins(c, e, a) then PouringNow else StartRejected
            case StartHalf => if Begins(c, e, a) then HalfPour else HalfUnavailable
  {
    hide Tap.CloseAction, Tap.TestAction, Tap.StartAction, Begins;
    match a.kind
    case Close => CloseSays(c, e);
    case Test => TestSays(c, e, a);
    case _ => StartSays(c, e, a);
  }

  lemma CloseSays(c: Tap, e: Env)
    requires ActionSite in e.pwmOk
    ensures c.CloseAction(e).control.reason == ManualClose
  {
    hide ControlState.Stop;
    StopKeeps(c.control, ManualClose);
  }

  lemma TestSays(c: Tap, e: Env, a: Action)
    ensures c.TestAction(e, a).control.reason == ServoTest
  {
    hide Tap.SetServo;
  }

  lemma StartSays(c: Tap, e: Env, a: Action)
    requires ActionSite in e.pwmOk && (a.kind == Start || a.kind == StartHalf)
    ensures c.StartAction(e, a).control.reason ==
            if Begins(c, e, a) then (if a.kind == Start then PouringNow else HalfPour)
            else if a.kind == Start then StartRejected else HalfUnavailable
  {
    hide Tap.Eligible, Begins, ControlState.ResetReady, ControlState.Ready, Tap.SetServo;
    EligibleExactly(c, e, a);
    BeginsReady(c, e, a);
    SameReady(c.control, c.settings, CutoffOf(c, a), e.Now());
    var half := a.kind == StartHalf;
    var k := c.StartControl(c.settings.ForTarget(c.Target(half)), e.Now());
    var t := (if half then k.SetReason(HalfPour) else k).CancelButton().ForgetHold(a.fromWeb);
    ServoWorks(t, c.settings.openUs, ActionSite in e.pwmOk);
  }

  lemma ServoWorks(t: Tap, us: int, ok: bool)
    ensures ok ==> t.SetServo(us, ok).control == t.control
  {
  }

  /** The cutoff that is published after an iteration is that of the automatic pour that
      runs, else the full mark. */
  lemma PublishesCutoff(k: Tap, e: Env)
    requires !k.updating
    ensures var n := k.Step(e); n.activeStop == if n.control.pouring then n.selected.stopMm else n.settings.stopMm
  {
    hide Tap.Act, Tap.HoldFill, Tap.Checked, Tap.Settle, Tap.Step, Tap.Stops, Tap.ButtonEvent;
    StepIsSettled(k, e);
    var c, ev, was, stop := k.Checked(e), k.ButtonEvent(e), k.Pouring(), k.Stops(e);
    SettlePublishes(c.Act(e, ev, was, stop).HoldFill(e, ev, stop, c.Got(ev, was, stop)), e);
  }

  lemma SettlePublishes(c: Tap, e: Env)
    ensures var n := c.Settle(e); n.activeStop == if n.control.pouring then n.selected.stopMm else n.settings.stopMm
  {
    hide Tap.SetServo;
  }
}
