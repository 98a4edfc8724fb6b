/** Whole pours in whole runs of the controller: what must come before one, what
    keeps it going, how long it can last, and what is recorded of it. */
module TapPours {
  import opened Clock
  import opened TapTypes
  import opened PourControl
  import opened TapController
  import opened TapSafety
  import opened TapTheorems
  import Runs = PourRuns
  import Rec = PourRecorder
  import Modes = TapModes
  import Gesture = ButtonGesture

  function LookOf(e: Env): Runs.Look { Runs.Look(e.sample, e.Now()) }

  /** The controller's looks at the sensor during these events. */
  function Looks(events: seq<Event>): seq<Runs.Look> {
    if events == [] then []
    else
      var looks, last := Looks(events[..|events| - 1]), events[|events| - 1];
      if last.Iterate? then looks + [LookOf(last.e)] else looks
  }

  ghost predicate SameButMessage(s: ControlState, t: ControlState) {
    s.(reason := t.reason) == t
  }

  lemma SameChain(s: ControlState, t: ControlState, u: ControlState)
    ensures SameButMessage(s, s)
    ensures SameButMessage(s, t) && SameButMessage(t, u) ==> SameButMessage(s, u)
  {
  }

  lemma UpdateIgnoresMessage(s: ControlState, t: ControlState, c: Settings, l: Runs.Look)
    requires SameButMessage(s, t)
    ensures SameButMessage(s.Update(c, l.s, l.now), t.Update(c, l.s, l.now))
  {
    hide ControlState.WhileIdle, ControlState.WhilePouring;
    var s', t' := s.(seen := l.s.sequence), t.(seen := l.s.sequence);
    ReadingIgnoresMessage(s', t', c, l);
  }

  lemma ReadingIgnoresMessage(s: ControlState, t: ControlState, c: Settings, l: Runs.Look)
    requires SameButMessage(s, t)
    ensures SameButMessage(s.WhileIdle(c, l.s), t.WhileIdle(c, l.s))
    ensures SameButMessage(s.WhilePouring(c, l.s), t.WhilePouring(c, l.s))
  {
  }

  // ------------------------------------------------------ before a pour starts

  /** No reset since the start of these events, and no pour. */
  ghost predicate Collecting(b: Tap, events: seq<Event>) {
    forall i :: 0 < i <= |events| ==> At(b, events, i).control.count > 0 && !At(b, events, i).control.pouring
  }

  /** While readings are being collected, the pour machine is where the looks
      since the last reset have taken it, and the settings are unchanged. */
  lemma {:induction false} CollectingFollowsLooks(b: Tap, events: seq<Event>)
    requires Inv(b) && b.control.count == 0 && !b.control.pouring && Collecting(b, events)
    ensures var k := After(b, events);
            && Inv(k) && k.settings == b.settings && (events != [] ==> !k.hold.pouring)
            && SameButMessage(Runs.After(b.settings, b.control, Looks(events)), k.control)
    decreases |events|
  {
    hide Tap.Apply, Tap.Step, ControlState.Update, Runs.After, SameButMessage;
    if events == [] {
      RunsAfterNothing(b.settings, b.control);
      SameChain(b.control, b.control, b.control);
    } else {
      var last := |events| - 1;
      AtPrefix(b, events, last);
      var k := After(b, events[..last]);
      assert Collecting(b, events[..last]);
      CollectingFollowsLooks(b, events[..last]);
      ApplyKeeps(k, events[last]);
      AtPrefix(b, events, |events|);
      CollectingStep(k, events[last]);
      if events[last].Iterate? {
        var s := Runs.After(b.settings, b.control, Looks(events[..last]));
        var l := LookOf(events[last].e);
        UpdateIgnoresMessage(s, k.control, b.settings, l);
        SameChain(s.Update(b.settings, l.s, l.now), k.control.Update(b.settings, l.s, l.now), After(b, events).control);
        RunsAfterOneMore(b.settings, b.control, Looks(events[..last]), l);
      }
    }
  }

  lemma {:induction false} RunsAfterNothing(c: Settings, s: ControlState)
    ensures Runs.After(c, s, []) == s
  {
  }

  lemma {:induction false} RunsAfterOneMore(c: Settings, s: ControlState, looks: seq<Runs.Look>, l: Runs.Look)
    ensures Runs.After(c, s, looks + [l]) == Runs.After(c, s, looks).Update(c, l.s, l.now)
  {
    assert (looks + [l])[..|looks|] == looks;
  }

  lemma CollectingStep(k: Tap, event: Event)
    requires Inv(k) && !k.control.pouring
    requires k.Apply(event).control.count > 0 && !k.Apply(event).control.pouring
    ensures var n := k.Apply(event);
            && n.settings == k.settings
            && (if event.Iterate?
                then !k.updating && !k.hold.pouring && !n.hold.pouring &&
                     SameButMessage(k.control.Update(k.settings, event.e.sample, event.e.Now()), n.control)
                else n.control == k.control && n.hold == k.hold)
  {
    hide Tap.Settled, Tap.Supervise, Tap.PollButton, Tap.CloseForUpdate, ControlState.Update, Rec.RecorderState.Observe, Accepted;
    if event.Iterate? && k.updating {
      UpdateKeeps(k, event.e);
      UpdateForgets(k, event.e);
    } else if event.Iterate? {
      IterationSettles(k, event.e);
    }
  }

  lemma UpdateForgets(k: Tap, e: Env)
    requires Inv(k) && k.updating
    ensures k.Step(e).control.count == 0
  {
    hide Tap.Supervise, Tap.PollButton, ControlState.Update;
  }

  /** What the sensor showed before an automatic pour for target `target`. */
  ghost predicate Earned(c: Settings, seen: uint32, looks: seq<Runs.Look>, target: int) {
    var news := Runs.News(seen, looks);
    && looks != [] && |news| >= 5
    && Runs.Unbroken(c, news[|news| - 5..]) && Runs.Stable(c, news[|news| - 5..])
    && var now, s := looks[|looks| - 1].now, looks[|looks| - 1].s;
    && Elapsed(now, news[|news| - 1].s.at) <= c.staleMs
    && s.Fresh(c, now) && s.mm > target && s.StableDistance() > target && c.stopMm <= target < c.maxMm
  }

  /** The iteration that starts an automatic pour. */
  lemma StartingStep(k: Tap, e: Env) returns (target: int)
    requires Inv(k) && !k.control.pouring && k.Step(e).control.pouring
    ensures var n, u := k.Step(e), k.control.Update(k.settings, e.sample, e.Now());
            && !k.updating && !k.hold.pouring && n.settings == k.settings
            && TargetReady(k.settings, u, e.sample, e.Now(), target)
            && n.selected == k.settings.ForTarget(target)
            && SameButMessage(u.Start(n.selected, e.Now()), n.control)
  {
    hide Tap.Settled, Tap.Supervise, Tap.PollButton, Tap.CloseForUpdate, ControlState.Update, Rec.RecorderState.Observe,
         Accepted, TargetReady;
    if k.updating {
      UpdateKeeps(k, e);
      assert false;
    }
    IterationSettles(k, e);
    var n, looked := k.Settled(e), k.Look(e).control;
    var half: bool :|
      && TargetReady(k.settings, looked, e.sample, e.Now(), k.Target(half))
      && n.selected == k.settings.ForTarget(k.Target(half))
      && n.control == looked.Start(n.selected, e.Now()).(reason := n.control.reason);
    target := k.Target(half);
  }

  lemma StartedAs(s: ControlState, u: ControlState, c: Settings, target: int, x: Sample, now: uint32, next: ControlState)
    requires SameButMessage(s, u) && TargetReady(c, u, x, now, target)
    requires SameButMessage(u.Start(c.ForTarget(target), now), next)
    ensures s.Ready(c, now)
    ensures next.pouring && next.started == now && next.previous == s.previous && next.seen == s.seen
    ensures !next.dropoutUsed && !next.dropoutPending && next.lastValid == s.lastValid
  {
  }

  lemma {:induction false} PourIsEarnedSince(b: Tap, events: seq<Event>, e: Env)
    requires Inv(b) && b.control.count == 0 && !b.control.pouring && Collecting(b, events)
    requires After(b, events).Step(e).control.pouring
    ensures var n := After(b, events).Step(e);
            && Earned(b.settings, b.control.seen, Looks(events) + [LookOf(e)], n.selected.stopMm)
            && n.settings == b.settings && n.selected == b.settings.ForTarget(n.selected.stopMm)
            && n.control.started == e.Now() && n.control.previous > 0
            && !n.control.dropoutUsed && !n.control.dropoutPending
  {
    hide Tap.Step, ControlState.Update, Runs.After, SameButMessage, Runs.News;
    CollectingFollowsLooks(b, events);
    var k := After(b, events);
    assert !k.control.pouring by { AtPrefix(b, events, |events|); }
    var target := StartingStep(k, e);
    var looks := Looks(events) + [LookOf(e)];
    UpdateIgnoresMessage(Runs.After(b.settings, b.control, Looks(events)), k.control, b.settings, LookOf(e));
    RunsAfterOneMore(b.settings, b.control, Looks(events), LookOf(e));
    var s := Runs.After(b.settings, b.control, looks);
    StartedAs(s, k.control.Update(k.settings, e.sample, e.Now()), b.settings, target, e.sample, e.Now(), k.Step(e).control);
    Runs.ReadyNeedsFiveReadings(b.settings, b.control, looks, e.Now());
    ReadyHasPrevious(b.settings, b.control, looks);
  }

  lemma {:induction false} ReadyHasPrevious(c: Settings, s: ControlState, looks: seq<Runs.Look>)
    requires c.stableMm >= 0 && c.stopMm >= 0 && !s.pouring && s.count == 0
    requires Runs.After(c, s, looks).count > 0
    ensures Runs.After(c, s, looks).previous > c.stopMm
  {
    var m := Runs.IdleBacked(c, s, looks);
  }

  lemma {:induction false} AfterJoins(b: Tap, xs: seq<Event>, ys: seq<Event>)
    ensures After(After(b, xs), ys) == After(b, xs + ys)
    decreases |ys|
  {
    hide Tap.Apply;
    if ys == [] {
      assert xs + ys == xs;
    } else {
      var init := ys[..|ys| - 1];
      AfterJoins(b, xs, init);
      assert (xs + ys)[..|xs + ys| - 1] == xs + init;
    }
  }

  lemma PourEndForgets(k: Tap, event: Event)
    requires Inv(k) && k.control.pouring && !k.Apply(event).control.pouring
    ensures k.Apply(event).control.count == 0
  {
    hide Tap.Settled, Tap.Supervise, Tap.PollButton, Tap.CloseForUpdate, ControlState.Update, Rec.RecorderState.Observe, Accepted;
    if event.Iterate? {
      IterationSettles(k, event.e);
      LookStartsNothing(k.control, k.selected, event.e.sample, event.e.Now());
    }
  }

  /** Every run has a last moment at which nothing was counted. */
  lemma {:induction false} LastReset(b: Tap, events: seq<Event>) returns (i: nat)
    requires Inv(b) && b.control.count == 0 && !b.control.pouring && !After(b, events).control.pouring
    ensures i <= |events| && var r := At(b, events, i);
            Inv(r) && r.control.count == 0 && !r.control.pouring && Collecting(r, events[i..])
            && After(r, events[i..]) == After(b, events)
    decreases |events|
  {
    hide Tap.Apply;
    AtPrefix(b, events, |events|);
    assert After(b, events) == b || events != [];
    if After(b, events).control.count == 0 {
      i := |events|;
      AllSafe(b, events);
      assert events[i..] == [];
    } else {
      var last := |events| - 1;
      AtPrefix(b, events, last);
      AllSafe(b, events[..last]);
      if After(b, events[..last]).control.pouring {
        PourEndForgets(After(b, events[..last]), events[last]);
        assert false;
      }
      i := LastReset(b, events[..last]);
      var r := At(b, events, i);
      assert r == At(b, events[..last], i);
      var tail := events[..last][i..];
      assert events[i..] == tail + [events[last]] && events[..i] + events[i..] == events;
      AfterJoins(b, events[..i], events[i..]);
      CollectingGrows(r, tail, events[last]);
    }
  }

  lemma {:induction false} CollectingGrows(b: Tap, events: seq<Event>, event: Event)
    requires Collecting(b, events)
    requires var n := After(b, events + [event]); n.control.count > 0 && !n.control.pouring
    ensures Collecting(b, events + [event])
  {
    hide Tap.Apply;
    var more := events + [event];
    assert more[..|events|] == events;
    AtPrefix(b, more, |events|);
    AtPrefix(b, more, |more|);
  }

  lemma {:induction false} AllSafe(b: Tap, events: seq<Event>)
    requires Inv(b)
    ensures Inv(After(b, events))
    decreases |events|
  {
    if events != [] {
      AllSafe(b, events[..|events| - 1]);
      ApplyKeeps(After(b, events[..|events| - 1]), events[|events| - 1]);
    }
  }

  /** No pour is started, or started again, without five new readings: in every
      run, an iteration that starts an automatic pour has behind it, since the
      last reset of the machine, at least five looks at new samples, the last five
      of them fresh, above the cutoff raw and smoothed, stable and close in time,
      and the newest still fresh. Any stop, start of a hold or test, change of
      settings or bad reading is such a reset. */
  lemma {:induction false} EveryPourIsEarned(boot: Boot, events: seq<Event>, e: Env)
    requires boot.Valid()
    requires !After(boot.State(), events).control.pouring && After(boot.State(), events).Step(e).control.pouring
    ensures exists i: nat :: i <= |events| &&
              var r, n := At(boot.State(), events, i), After(boot.State(), events).Step(e);
              && r.control.count == 0 && !r.control.pouring
              && Earned(n.settings, r.control.seen, Looks(events[i..]) + [LookOf(e)], n.selected.stopMm)
              && n.selected == n.settings.ForTarget(n.selected.stopMm)
  {
    hide Tap.Step, Tap.Apply, Earned;
    var b := boot.State();
    BootIsSafe(boot);
    BootIsIdle(boot);
    var i := LastReset(b, events);
    PourIsEarnedSince(At(b, events, i), events[i..], e);
  }

  lemma BootIsIdle(boot: Boot)
    ensures !boot.State().control.pouring && boot.State().control.count == 0
  {
  }

  // ------------------------------------------------------- while a pour runs

  ghost predicate AutoPourThroughout(b: Tap, events: seq<Event>) {
    forall i :: 0 <= i <= |events| ==> At(b, events, i).control.pouring
  }

  lemma PouringStep(k: Tap, event: Event)
    requires Inv(k) && k.control.pouring && k.Apply(event).control.pouring
    ensures var n := k.Apply(event);
            && n.selected == k.selected && n.settings == k.settings
            && (if event.Iterate?
                then SameButMessage(k.control.Update(k.selected, event.e.sample, event.e.Now()), n.control)
                else n.control == k.control)
  {
    hide Tap.Settled, Tap.Supervise, Tap.PollButton, Tap.CloseForUpdate, ControlState.Update, Rec.RecorderState.Observe, Accepted;
    if event.Iterate? {
      IterationSettles(k, event.e);
    }
  }

  lemma {:induction false} PourFollowsLooks(b: Tap, events: seq<Event>)
    requires Inv(b) && AutoPourThroughout(b, events)
    ensures var k := After(b, events);
            && Inv(k) && k.selected == b.selected && k.settings == b.settings
            && SameButMessage(Runs.After(b.selected, b.control, Looks(events)), k.control)
    decreases |events|
  {
    hide Tap.Apply, ControlState.Update, Runs.After;
    if events == [] {
      RunsAfterNothing(b.selected, b.control);
    } else {
      var last := |events| - 1;
      AtPrefix(b, events, last);
      AtPrefix(b, events, |events|);
      var k := After(b, events[..last]);
      assert AutoPourThroughout(b, events[..last]);
      PourFollowsLooks(b, events[..last]);
      ApplyKeeps(k, events[last]);
      assert At(b, events, last).control.pouring && At(b, events, last + 1).control.pouring;
      PouringStep(k, events[last]);
      if events[last].Iterate? {
        var l := LookOf(events[last].e);
        UpdateIgnoresMessage(Runs.After(b.selected, b.control, Looks(events[..last])), k.control, b.selected, l);
        RunsAfterOneMore(b.selected, b.control, Looks(events[..last]), l);
      }
    }
  }

  /** Safety of automatic pours in every run. As long as a pour that an iteration
      has started goes on, whatever else happens, every look at the sensor was
      within the time limits, all new readings were above the cutoff of the pour
      (the one selected at its start), in range and without jumps, and at most one
      sample was ignored, the tolerated no-return at the opening. */
  lemma {:induction false} EveryPourStaysSafe(boot: Boot, before: seq<Event>, e: Env, events: seq<Event>)
    requires boot.Valid()
    requires !After(boot.State(), before).control.pouring
    requires AutoPourThroughout(After(boot.State(), before).Step(e), events)
    ensures var b := After(boot.State(), before).Step(e);
            && After(b, events).selected == b.selected
            && Runs.Tolerable(b.selected, b.control, Runs.News(b.control.seen, Looks(events)))
            && forall k :: 0 < k <= |Looks(events)| ==> Runs.OnTime(b.selected, b.control, Looks(events)[..k])
  {
    hide Tap.Step, Tap.Apply, ControlState.Update, Runs.Tolerable, Runs.OnTime, Runs.News;
    var boots, k := boot.State(), After(boot.State(), before);
    BootIsSafe(boot);
    BootIsIdle(boot);
    AllSafe(boots, before);
    StepKeeps(k, e);
    var b := k.Step(e);
    AtPrefix(b, events, 0);
    assert At(b, events, 0).control.pouring;
    var i := LastReset(boots, before);
    PourIsEarnedSince(At(boots, before, i), before[i..], e);
    PourFollowsLooks(b, events);
    assert At(b, events, |events|) == After(b, events) by { AtPrefix(b, events, |events|); }
    Runs.PourSurvivesOnlyIfSafe(b.selected, b.control, Looks(events));
  }

  // ---------------------------------------------------------- how long it lasts

  function StartedAt(k: Tap): uint32 { if k.control.pouring then k.control.started else k.hold.started }

  /** True time of the last iteration among these events; `t0` if there is none. */
  function LastTime(t0: nat, events: seq<Event>): nat {
    if events == [] then t0
    else
      var last := events[|events| - 1];
      if last.Iterate? then last.e.t else LastTime(t0, events[..|events| - 1])
  }

  /** Time does not run backwards, and iterations are at most `d` ms apart. */
  ghost predicate Paced(t0: nat, events: seq<Event>, d: nat) {
    events == [] ||
    (var init, last := events[..|events| - 1], events[|events| - 1];
     Paced(t0, init, d) && (last.Iterate? ==> LastTime(t0, init) <= last.e.t <= LastTime(t0, init) + d))
  }

  ghost predicate PourThroughout(b: Tap, events: seq<Event>) {
    forall i :: 0 <= i <= |events| ==> At(b, events, i).Pouring()
  }

  ghost predicate Limited(k: Tap) {
    k.Pouring() && (k.control.pouring ==> k.selected.maxPourMs == k.settings.maxPourMs)
  }

  lemma OngoingStep(k: Tap, event: Event)
    requires Inv(k) && Limited(k) && k.Apply(event).Pouring()
    ensures var n := k.Apply(event);
            && Limited(n) && n.settings == k.settings && StartedAt(n) == StartedAt(k)
            && (event.Iterate? ==> Elapsed(event.e.Now(), StartedAt(n)) < n.settings.maxPourMs)
            && n.control.pouring == k.control.pouring
  {
    hide Tap.Settled, Tap.Supervise, Tap.PollButton, Tap.CloseForUpdate, ControlState.Update, Rec.RecorderState.Observe, Accepted;
    ApplyKeeps(k, event);
    if event.Iterate? {
      var e := event.e;
      if k.updating {
        UpdateKeeps(k, e);
        assert false;
      }
      IterationSettles(k, e);
      if k.control.pouring {
        LookStartsNothing(k.control, k.selected, e.sample, e.Now());
        if k.control.Update(k.selected, e.sample, e.Now()).pouring {
          Runs.KeepsPouring(k.selected, k.control, LookOf(e));
        }
      }
    }
  }

  lemma FirstStep(k: Tap, e: Env)
    requires Inv(k) && !k.Pouring() && k.Step(e).Pouring()
    ensures Limited(k.Step(e)) && StartedAt(k.Step(e)) == e.Now() && k.Step(e).settings == k.settings && !k.updating
  {
    hide Tap.Settled, Tap.Supervise, Tap.PollButton, Tap.CloseForUpdate, ControlState.Update, Rec.RecorderState.Observe, Accepted;
    if k.updating {
      UpdateKeeps(k, e);
      assert false;
    }
    IterationSettles(k, e);
  }

  /** No pour outlives its limit: an automatic pour or manual hold that is still
      under way after an iteration at true time `t` was started less than the
      maximum pour time before `t`. With iterations at most `d` ms apart it is
      therefore closed within the maximum time plus `d`; the clock may wrap. */
  lemma {:induction false} NoPourOutlivesItsLimit(k: Tap, e: Env, events: seq<Event>, d: nat)
    requires Reachable(k) && !k.Pouring() && PourThroughout(k.Step(e), events)
    requires Paced(e.t, events, d) && d < WORD - 120_000
    ensures var n := After(k.Step(e), events);
            && e.t <= LastTime(e.t, events) < e.t + n.settings.maxPourMs
            && Limited(n) && StartedAt(n) == e.Now() && n.settings == k.settings && Inv(n)
    decreases |events|
  {
    hide Tap.Step, Tap.Apply, Limited, StartedAt;
    ReachableIsSafe(k);
    StepKeeps(k, e);
    var b := k.Step(e);
    AtPrefix(b, events, |events|);
    if events == [] {
      FirstStep(k, e);
    } else {
      var last := |events| - 1;
      AtPrefix(b, events, last);
      assert PourThroughout(b, events[..last]);
      NoPourOutlivesItsLimit(k, e, events[..last], d);
      var n := After(b, events[..last]);
      assert At(b, events, last + 1).Pouring();
      OngoingStep(n, events[last]);
      ApplyKeeps(n, events[last]);
      if events[last].Iterate? {
        ElapsedIsTrueTime(e.t, events[last].e.t);
      }
    }
  }

  // ------------------------------------------------------ what is recorded of it

  const MAX_LAG: nat := 500

  /** What the history is told by one iteration, at the true time of that reading. */
  function MomentOf(k: Tap, e: Env): Rec.Moment {
    Rec.Moment(e.t + e.lag, k.Settled(e).Observation(e, k.ButtonEvent(e), k.Pouring(), k.hold.pouring))
  }

  /** What the history is told by an iteration to `n`: the sample of this iteration,
      the servo and the modes it has led to, whether the button reported anything, the
      settings of the pour that runs or has just ended, and the message of the machine
      that pours, or of the automatic one. */
  lemma HistoryIsTold(k: Tap, e: Env)
    requires Reachable(k) && !k.updating
    ensures var o, n, b := MomentOf(k, e).o, k.Step(e), Modes.Contact(k, e);
            && MomentOf(k, e).t == e.t + e.lag && o.now == Wrap(e.t + e.lag)
            && o.s.mm == e.sample.mm && o.s.status == e.sample.status && o.s.valid == e.sample.valid
            && o.s.at == e.sample.at && o.s.sequence == e.sample.sequence && o.s == e.sample
            && o.servo == n.servo && o.pouring == n.Pouring() && o.hold == n.hold.pouring
            && (o.button <==> b.pressed || b.shortPress || b.longPress)
            && o.reason == (if n.hold.pouring then n.hold.reason else n.control.reason)
            && o.c == (if k.control.pouring then k.selected else if n.control.pouring then n.selected else k.settings)
  {
    hide Tap.Settled, Tap.Step, Settings.Valid, Modes.Contact, Tap.ButtonEvent;
    ReachableIsSafe(k);
    Modes.StepIsSettled(k, e);
    Modes.ContactIsButton(k, e);
    if k.control.pouring {
      Modes.PourKeepsSettings(k, e);
    }
    HoldsApart(k, e);
  }

  /** A hold is neither preceded nor followed at once by an automatic pour. */
  lemma HoldsApart(k: Tap, e: Env)
    requires Inv(k) && !k.updating
    ensures k.control.pouring ==> !k.Settled(e).hold.pouring
    ensures k.hold.pouring ==> !k.Settled(e).control.pouring
    ensures k.Settled(e).settings == k.settings && !(k.Settled(e).control.pouring && k.Settled(e).hold.pouring)
  {
    hide Tap.Settled, Accepted, Settings.Valid;
    IterationSettles(k, e);
  }

  function Moments(b: Tap, events: seq<Event>): seq<Rec.Moment> {
    if events == [] then []
    else
      var init, last := events[..|events| - 1], events[|events| - 1];
      var ms := Moments(b, init);
      if last.Iterate? then ms + [MomentOf(After(b, init), last.e)] else ms
  }

  /** The history is told soon after the iteration's own clock reading, and before
      the next one. */
  ghost predicate Prompt(first: Rec.Moment, b: Tap, events: seq<Event>) {
    && (forall event :: event in events && event.Iterate? ==> event.e.lag <= MAX_LAG)
    && var ms := [first] + Moments(b, events);
       forall i, j :: 0 <= i <= j < |ms| ==> ms[i].t <= ms[j].t
  }

  lemma StepTellsHistory(k: Tap, e: Env)
    requires Inv(k) && !k.updating && !k.SavingRead(e, 3)
    ensures k.Step(e).recorder == k.recorder.(saving := false).Observe(MomentOf(k, e).o)
    ensures MomentOf(k, e).o.pouring == k.Step(e).Pouring() && MomentOf(k, e).o.now == Wrap(MomentOf(k, e).t)
  {
    hide Tap.Settled, Rec.RecorderState.Observe, ControlMoves, Accepted;
    IterationSettles(k, e);
  }

  lemma StartIsTold(k: Tap, e: Env)
    requires Inv(k) && !k.Pouring() && k.Step(e).Pouring()
    ensures !k.updating && !k.SavingRead(e, 3) && !k.recorder.recording
  {
    hide Tap.Settled, Tap.Supervise, Tap.PollButton, Tap.CloseForUpdate, Rec.RecorderState.Observe, Accepted, ControlMoves;
    if k.updating {
      UpdateKeeps(k, e);
      assert false;
    }
    IterationSettles(k, e);
  }

  lemma {:induction false} OneMoreMoment(b: Tap, events: seq<Event>, event: Event)
    ensures Moments(b, events + [event]) ==
            if event.Iterate? then Moments(b, events) + [MomentOf(After(b, events), event.e)] else Moments(b, events)
  {
    hide MomentOf;
    assert (events + [event])[..|events|] == events;
  }

  lemma OngoingIsTold(k: Tap, event: Event)
    requires Inv(k) && k.Pouring() && k.recorder.available && !event.Iterate?
    ensures k.Apply(event).recorder == k.recorder
  {
  }

  /** In state `n` of a pour the recorder has been told the moments `ms`, all
      before `limit`. */
  ghost predicate Told(n: Tap, r: Rec.RecorderState, ms: seq<Rec.Moment>, limit: nat) {
    && Inv(n) && n.Pouring() && n.recorder.available && n.recorder == Rec.After(r, ms)
    && (forall i :: 0 <= i < |ms| ==> ms[i].o.pouring && ms[i].o.now == Wrap(ms[i].t) && ms[i].t < limit)
  }

  lemma ToldFirst(k: Tap, e: Env, limit: nat)
    requires Inv(k) && !k.Pouring() && k.Step(e).Pouring() && k.recorder.available && e.t + e.lag < limit
    ensures Told(k.Step(e), k.recorder.(saving := false), [MomentOf(k, e)], limit)
  {
    hide Tap.Step, MomentOf, Rec.RecorderState.Observe;
    StepKeeps(k, e);
    StartIsTold(k, e);
    StepTellsHistory(k, e);
    ToldTime(k, e);
    ObserveKeepsPartition(k.recorder.(saving := false), MomentOf(k, e).o);
    RecAfterOneMore(k.recorder.(saving := false), [], MomentOf(k, e));
    assert [] + [MomentOf(k, e)] == [MomentOf(k, e)];
  }

  lemma ToldMore(n: Tap, r: Rec.RecorderState, ms: seq<Rec.Moment>, limit: nat, event: Event)
    requires Told(n, r, ms, limit) && n.Apply(event).Pouring()
    requires event.Iterate? ==> event.e.t + event.e.lag < limit
    ensures Told(n.Apply(event), r, if event.Iterate? then ms + [MomentOf(n, event.e)] else ms, limit)
  {
    hide Tap.Step, Tap.Apply, MomentOf, Rec.RecorderState.Observe;
    ApplyKeeps(n, event);
    if event.Iterate? {
      IterateIsStep(n, event);
      StepTellsHistory(n, event.e);
      ToldTime(n, event.e);
      ObserveKeepsPartition(n.recorder, MomentOf(n, event.e).o);
      RecAfterOneMore(r, ms, MomentOf(n, event.e));
    } else {
      OngoingIsTold(n, event);
    }
  }

  /** While a pour goes on the recorder has been told each of its moments. */
  lemma {:induction false} RecorderFollows(k: Tap, e: Env, events: seq<Event>, d: nat)
    requires Reachable(k) && !k.Pouring() && PourThroughout(k.Step(e), events) && k.recorder.available
    requires Paced(e.t, events, d) && d < WORD - 121_000
    requires e.lag <= MAX_LAG
    requires forall event :: event in events && event.Iterate? ==> event.e.lag <= MAX_LAG
    ensures var ms := [MomentOf(k, e)] + Moments(k.Step(e), events);
            Told(After(k.Step(e), events), k.recorder.(saving := false), ms, e.t + 120_000 + MAX_LAG)
    decreases |events|
  {
    hide Tap.Step, Tap.Apply, MomentOf, Told;
    ReachableIsSafe(k);
    var b, m := k.Step(e), MomentOf(k, e);
    PourEnds(b, events);
    NoPourOutlivesItsLimit(k, e, events, d);
    if events == [] {
      ToldFirst(k, e, e.t + 120_000 + MAX_LAG);
      assert [m] + Moments(b, events) == [m];
    } else {
      var last := |events| - 1;
      var init := events[..last];
      assert events == init + [events[last]];
      PourPrefix(b, events, last);
      OneMoreMoment(b, init, events[last]);
      RecorderFollows(k, e, init, d);
      ToldMore(After(b, init), k.recorder.(saving := false), [m] + Moments(b, init), e.t + 120_000 + MAX_LAG, events[last]);
      if events[last].Iterate? {
        var more := [MomentOf(After(b, init), events[last].e)];
        assert ([m] + Moments(b, init)) + more == [m] + (Moments(b, init) + more);
      }
    }
  }

  lemma {:induction false} PourEnds(b: Tap, events: seq<Event>)
    requires PourThroughout(b, events)
    ensures b.Pouring() && After(b, events).Pouring()
  {
    hide Tap.Apply;
    AtPrefix(b, events, 0);
    AtPrefix(b, events, |events|);
    assert At(b, events, 0).Pouring() && At(b, events, |events|).Pouring();
  }

  lemma PourPrefix(b: Tap, events: seq<Event>, n: nat)
    requires PourThroughout(b, events) && n <= |events|
    ensures PourThroughout(b, events[..n])
  {
    hide Tap.Apply;
    AtPrefix(b, events, n);
  }

  lemma IterateIsStep(k: Tap, event: Event)
    requires event.Iterate?
    ensures k.Apply(event) == k.Step(event.e)
  {
  }

  lemma ToldTime(k: Tap, e: Env)
    ensures MomentOf(k, e).t == e.t + e.lag
  {
  }

  lemma ObserveKeepsPartition(r: Rec.RecorderState, o: Rec.Observation)
    ensures r.Observe(o).available == r.available
  {
  }

  lemma {:induction false} RecAfterOneMore(r: Rec.RecorderState, ms: seq<Rec.Moment>, m: Rec.Moment)
    ensures Rec.After(r, ms + [m]) == Rec.After(r, ms).Observe(m.o)
  {
    assert (ms + [m])[..|ms|] == ms;
  }

  lemma PromptPrefix(first: Rec.Moment, b: Tap, events: seq<Event>, event: Event)
    requires Prompt(first, b, events + [event])
    ensures Prompt(first, b, events)
  {
    hide MomentOf;
    OneMoreMoment(b, events, event);
    var ms, more := [first] + Moments(b, events), [first] + Moments(b, events + [event]);
    assert forall i :: 0 <= i < |ms| ==> more[i] == ms[i];
    assert forall x :: x in events ==> x in events + [event];
  }

  /** Every pour, automatic or manual, reaches the writer whole: when the iteration
      `end` ends it, the buffer handed over holds exactly the rows that were due
      from its opening to its closing reading, with true times, within the 242
      that fit; nothing was overwritten. */
  lemma {:induction false} EveryPourIsHandedOverWhole(k: Tap, e: Env, events: seq<Event>, end: Env, d: nat)
    requires Reachable(k) && !k.Pouring() && PourThroughout(k.Step(e), events) && k.recorder.available
    requires !After(k.Step(e), events).Step(end).Pouring()
    requires Paced(e.t, events, d) && LastTime(e.t, events) <= end.t <= LastTime(e.t, events) + d && d < WORD - 121_000
    requires e.lag <= MAX_LAG && Prompt(MomentOf(k, e), k.Step(e), events + [Iterate(end)])
    ensures var ms := [MomentOf(k, e)] + Moments(k.Step(e), events + [Iterate(end)]);
            && |Rec.Due(ms)| <= Rec.MAX_POINTS
            && Rec.HandedOver(After(k.Step(e), events).Step(end).recorder, ms)
  {
    hide Tap.Step, Tap.Apply, MomentOf, Rec.RecorderState.Observe;
    ReachableIsSafe(k);
    var b, m, r := k.Step(e), MomentOf(k, e), k.recorder.(saving := false);
    PromptPrefix(m, b, events, Iterate(end));
    RecorderFollows(k, e, events, d);
    NoPourOutlivesItsLimit(k, e, events, d);
    PourEnds(b, events);
    StartIsTold(k, e);
    ToldTime(k, e);
    var n := After(b, events);
    StepTellsHistory(n, end);
    ToldTime(n, end);
    OneMoreMoment(b, events, Iterate(end));
    var ms, all := [m] + Moments(b, events), [m] + Moments(b, events + [Iterate(end)]);
    assert all == ms + [MomentOf(n, end)];
    assert forall i, j :: 0 <= i <= j < |all| ==> all[i].t <= all[j].t;
    EndingIsWhole(r, ms, MomentOf(n, end), e.t + 120_000 + MAX_LAG);
  }

  lemma {:induction false} EndingIsWhole(r: Rec.RecorderState, ms: seq<Rec.Moment>, end: Rec.Moment, limit: nat)
    requires r.available && !r.recording && !r.saving && ms != []
    requires forall i :: 0 <= i < |ms| ==> ms[i].o.pouring && ms[i].o.now == Wrap(ms[i].t) && ms[i].t < limit
    requires limit - ms[0].t <= 120_500 && end.t - ms[0].t < WORD && end.o.now == Wrap(end.t) && !end.o.pouring
    requires forall i, j :: 0 <= i <= j < |ms + [end]| ==> (ms + [end])[i].t <= (ms + [end])[j].t
    ensures var all := ms + [end];
            |Rec.Due(all)| <= Rec.MAX_POINTS && Rec.HandedOver(Rec.After(r, ms).Observe(end.o), all)
  {
    hide Rec.RecorderState.Observe;
    var all := ms + [end];
    RecAfterOneMore(r, ms, end);
    assert Rec.OnePour(all);
    Rec.WholePourIsRecorded(r, all);
  }
}
