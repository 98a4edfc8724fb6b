/** What the retained frame is good for: over every run of drawing and refresh
    calls the panel, the controller's planes and the retained frame agree, and
    full refreshes come often enough. */
module EpaperRefresh {
  import opened Clock
  import opened Epaper

  // ------------------------------------------------------------ the changed area

  lemma GrownHolds(b: Window, c: Window, v: Window, n: nat)
    requires n < SIZE && c == Window(Min(b.x0, n % STRIDE), Max(b.x1, n % STRIDE), Min(b.y0, n / STRIDE), Max(b.y1, n / STRIDE))
    ensures c.Holds(n) && forall i :: b.Holds(i) ==> c.Holds(i)
    ensures v.Holds(n) && (b.Within(v) || b == Window(STRIDE, -1, ROWS, -1)) ==> c.Within(v)
  {
  }

  lemma {:induction false} BoundsAreTight(f: Frame, g: Frame, n: nat, v: Window)
    requires n <= SIZE
    requires forall i :: 0 <= i < n && f[i] != g[i] ==> v.Holds(i)
    ensures var b := Bounds(f, g, n);
            && (forall i :: 0 <= i < n && f[i] != g[i] ==> b.Holds(i))
            && (f[..n] != g[..n] ==> b.Within(v))
    decreases n
  {
    hide Window.Holds;
    if n > 0 {
      BoundsAreTight(f, g, n - 1, v);
      BoundsFacts(f, g, n - 1);
      assert f[..n] == f[..n - 1] + [f[n - 1]] && g[..n] == g[..n - 1] + [g[n - 1]];
      if f[n - 1] != g[n - 1] {
        GrownHolds(Bounds(f, g, n - 1), Bounds(f, g, n), v, n - 1);
      }
    }
  }

  /** The changed area is a window of the panel exactly when the frames differ; it
      holds every differing byte, and every window that does contains it. */
  lemma {:induction false} ChangedAreaIsSmallest(f: Frame, g: Frame, v: Window)
    ensures var b := Bounds(f, g, SIZE);
            && (b.OnPanel() <==> f != g)
            && (forall i :: 0 <= i < SIZE && f[i] != g[i] ==> b.Holds(i))
            && (f != g && (forall i :: 0 <= i < SIZE && f[i] != g[i] ==> v.Holds(i)) ==> b.Within(v))
  {
    assert f[..SIZE] == f && g[..SIZE] == g;
    BoundsFacts(f, g, SIZE);
    BoundsAreTight(f, g, SIZE, Window(0, STRIDE - 1, 0, ROWS - 1));
    if forall i :: 0 <= i < SIZE && f[i] != g[i] ==> v.Holds(i) {
      BoundsAreTight(f, g, SIZE, v);
    }
  }

  /** The logical rectangle of a window maps back to exactly that window, and it is
      rejected only when the window touches the last, half visible byte column:
      the case that never reaches the partial refresh. */
  lemma AreaRoundTrip(w: Window)
    requires w.OnPanel()
    ensures RectOf(w).Native() == w
    ensures RectOf(w).Accepted() <==> w.x1 < STRIDE - 1
    ensures RectOf(w).y + RectOf(w).height > HEIGHT <==> w.x1 == STRIDE - 1
  {
    var r := RectOf(w);
    assert r.y + r.height == (w.x1 + 1) * 8 && (r.y + r.height - 1) / 8 == w.x1;
  }

  /** The window of an accepted rectangle holds the bytes of exactly the pixels in
      the rectangle. */
  lemma RectangleIsItsPixels(r: Rect, px: int, py: int)
    requires r.Accepted() && OnScreen(px, py)
    ensures r.Native().OnPanel()
    ensures r.Native().Holds(ByteOf(px, py)) <==> InRect(px, py, r.x, r.y, r.width, r.height)
  {
    var a, b := r.y / 8, r.height / 8;
    assert r.y == 8 * a && r.height == 8 * b && (r.y + r.height - 1) / 8 == a + b - 1;
    assert a <= py / 8 <= a + b - 1 <==> 8 * a <= py < 8 * a + 8 * b;
  }

  // ------------------------------------------------------------------- agreement

  /** A valid retained frame is what the panel shows and both planes hold. */
  predicate InSync(s: Screen) {
    s.valid ==> s.retained == s.shown && s.retained == s.previous && s.retained == s.current
  }

  predicate Agreed(s: Screen) { s.valid && s.retained == s.fb == s.shown && s.previous == s.current == s.fb }

  lemma PartialInSync(s: Screen, w: Window)
    requires InSync(s)
    ensures InSync(AfterPartial(s, w, Smooth))
    ensures s.valid ==> AfterPartial(s, w, Smooth).shown == Copied(s.fb, s.shown, w)
  {
    var n := AfterPartial(s, w, Smooth);
    var c := Copied(s.fb, s.current, w);
    assert n.current == Copied(s.fb, c, w) == c;
    if s.valid {
      assert n.shown == Driven(s.previous, c, s.shown) == c;
    }
  }

  lemma {:induction false} AreaCoversTheChange(f: Frame, g: Frame)
    ensures Copied(f, g, Bounds(f, g, SIZE)) == f
  {
    ChangedAreaIsSmallest(f, g, Window(0, STRIDE - 1, 0, ROWS - 1));
  }

  /** The rectangle a changed refresh sends is one the partial refresh accepts. */
  lemma ChoiceIsAccepted(s: Screen, interval: uint32)
    ensures var c := Choice(s, interval);
            c.Area? ==> s.valid && s.fb != s.retained && c.rect.Accepted() && c.rect.Native() == Bounds(s.fb, s.retained, SIZE)
  {
    hide Bounds, Rect.Accepted;
    if Choice(s, interval).Area? {
      var b := Bounds(s.fb, s.retained, SIZE);
      ChangedAreaIsSmallest(s.fb, s.retained, b);
      AreaRoundTrip(b);
    }
  }

  /** Only a window is sent exactly when a frame is retained, something has changed,
      the interval is not used up, and no byte of the last column has changed. */
  lemma WindowExactlyWhen(s: Screen, interval: uint32)
    ensures Choice(s, interval).Area? <==>
            && s.valid && s.fb != s.retained && (interval == 0 || s.count < interval - 1)
            && forall i :: 0 <= i < SIZE && s.fb[i] != s.retained[i] ==> i % STRIDE != STRIDE - 1
  {
    hide Bounds;
    var f, g := s.fb, s.retained;
    var b, v := Bounds(f, g, SIZE), Window(0, STRIDE - 2, 0, ROWS - 1);
    ChangedAreaIsSmallest(f, g, v);
    if f != g {
      AreaRoundTrip(b);
      if forall i :: 0 <= i < SIZE && f[i] != g[i] ==> i % STRIDE != STRIDE - 1 {
        InColumns(f, g, v);
      } else {
        var i :| 0 <= i < SIZE && f[i] != g[i] && i % STRIDE == STRIDE - 1;
        assert b.Holds(i);
      }
    }
  }

  lemma InColumns(f: Frame, g: Frame, v: Window)
    requires v == Window(0, STRIDE - 2, 0, ROWS - 1)
    requires forall i :: 0 <= i < SIZE && f[i] != g[i] ==> i % STRIDE != STRIDE - 1
    ensures forall i :: 0 <= i < SIZE && f[i] != g[i] ==> v.Holds(i)
  {
  }

  /** A changed refresh never fails on its own arguments, and when it reports
      success the panel, the retained frame and the framebuffer are all equal. */
  lemma ChangedShowsTheDrawing(s: Screen, interval: uint32, t: Trouble)
    requires InSync(s) && s.ready
    ensures var (n, outcome) := Changed(s, interval, t);
            && outcome != InvalidArg && n.fb == s.fb
            && (outcome == Done ==> Agreed(n))
  {
    hide Bounds, AfterPartial, RectOf, Rect.Accepted, Rect.Native;
    ChoiceIsAccepted(s, interval);
    var c := Choice(s, interval);
    if c.Area? {
      AfterPartialKeeps(s, c.rect.Native(), t);
      PartialInSync(s, c.rect.Native());
      AreaCoversTheChange(s.fb, s.retained);
    }
  }

  lemma AfterPartialKeeps(s: Screen, w: Window, t: Trouble)
    ensures var n := AfterPartial(s, w, t);
            && n.fb == s.fb && n.valid == s.valid && n.count == s.count && n.ready == s.ready
            && (t.At? ==> n.retained == s.retained)
  {
  }

  // ------------------------------------------------------------------------ runs

  datatype Event =
    | Draw(fb: Frame)
    | Wake                               // out of deep sleep: a white framebuffer
    | PowerLoss(garbage: Screen)         // RTC memory and controller RAM are gone
    | FullRefresh(t: Trouble)
    | PartialRefresh(r: Rect, t: Trouble)
    | ChangedRefresh(interval: uint32, t: Trouble)

  function Apply(s: Screen, e: Event): (Screen, Outcome) {
    match e
    case Draw(fb) => (s.(fb := fb), Done)
    case Wake => (s.(fb := Blank(SIZE, 0xFF), ready := true), Done)
    case PowerLoss(g) => (g.(shown := s.shown, valid := false, count := 0, ready := false), Done)
    case FullRefresh(t) => Full(s, t)
    case PartialRefresh(r, t) => Partial(s, r, t)
    case ChangedRefresh(interval, t) => Changed(s, interval, t)
  }

  ghost predicate IsRun(states: seq<Screen>, events: seq<Event>) {
    && |states| == |events| + 1
    && (forall i :: 0 <= i < |events| ==> states[i + 1] == Apply(states[i], events[i]).0)
  }

  predicate NoFailure(states: seq<Screen>, events: seq<Event>)
    requires |states| == |events| + 1
  {
    forall i :: 0 <= i < |events| ==> Apply(states[i], events[i]).1 != Failed
  }

  lemma ApplyInSync(s: Screen, e: Event)
    requires InSync(s) && Apply(s, e).1 != Failed
    ensures InSync(Apply(s, e).0)
  {
    hide Bounds, AfterPartial, Rect.Accepted, Rect.Native, Changed;
    match e
    case ChangedRefresh(interval, t) =>
      if s.ready {
        ChangedShowsTheDrawing(s, interval, t);
      }
      UnreadyChangesNothing(s, interval, t);
    case PartialRefresh(r, t) => PartialInSync(s, r.Native());
    case _ =>
  }

  lemma UnreadyChangesNothing(s: Screen, interval: uint32, t: Trouble)
    ensures var (n, outcome) := Changed(s, interval, t);
            && (!s.ready ==> n == s && outcome == InvalidState)
            && (s.ready ==> outcome != InvalidState)
  {
    hide Bounds, AfterPartial;
  }

  /** Over every run whose refreshes succeed, started from a first power-up, a
      valid retained frame is what the panel shows. */
  lemma {:induction false} RetainedIsShown(states: seq<Screen>, events: seq<Event>, n: nat)
    requires IsRun(states, events) && NoFailure(states, events) && !states[0].valid && n <= |events|
    ensures InSync(states[n])
    decreases n
  {
    hide Apply, InSync;
    if n == 0 {
      InvalidInSync(states[0]);
    } else {
      RetainedIsShown(states, events, n - 1);
      assert Apply(states[n - 1], events[n - 1]).1 != Failed;
      ApplyInSync(states[n - 1], events[n - 1]);
    }
  }

  lemma InvalidInSync(s: Screen)
    ensures !s.valid ==> InSync(s)
  {
  }

  // -------------------------------------------------------------- refresh interval

  /** The step made the panel refresh through the changed-area call. */
  predicate Refreshes(s: Screen, e: Event) {
    e.ChangedRefresh? && s.ready && Apply(s, e).1 == Done && Choice(s, e.interval) != Nothing
  }

  /** The step is a full refresh of the panel. */
  predicate RefreshesWhole(s: Screen, e: Event) {
    s.ready && Apply(s, e).1 == Done && (e.FullRefresh? || (e.ChangedRefresh? && Choice(s, e.interval) == Whole))
  }

  /** How many of the first `n` steps do. */
  function Refreshing(states: seq<Screen>, events: seq<Event>, n: nat): (count: nat)
    requires |states| == |events| + 1 && n <= |events|
  {
    if n == 0 then 0
    else Refreshing(states, events, n - 1) + (if Refreshes(states[n - 1], events[n - 1]) then 1 else 0)
  }

  lemma {:induction false} PartialsAreCounted(states: seq<Screen>, events: seq<Event>, interval: uint32, n: nat)
    requires IsRun(states, events) && NoFailure(states, events) && n <= |events| && interval > 0
    requires forall i :: 0 <= i < |events| && events[i].ChangedRefresh? ==> events[i].interval == interval
    requires forall i :: 0 <= i < |events| ==> !RefreshesWhole(states[i], events[i])
    ensures var p := Refreshing(states, events, n); p < interval && (states[n].valid ==> p <= states[n].count)
    decreases n
  {
    hide Apply, Refreshes, Choice;
    if n > 0 {
      PartialsAreCounted(states, events, interval, n - 1);
      assert !RefreshesWhole(states[n - 1], events[n - 1]);
      assert Apply(states[n - 1], events[n - 1]).1 != Failed;
      StepCounts(states[n - 1], events[n - 1], interval);
    }
  }

  lemma StepCounts(s: Screen, e: Event, interval: uint32)
    requires interval > 0 && (e.ChangedRefresh? ==> e.interval == interval)
    requires !RefreshesWhole(s, e) && Apply(s, e).1 != Failed
    ensures var n := Apply(s, e).0;
            && (n.valid ==> s.valid && n.count >= s.count)
            && (Refreshes(s, e) ==> s.valid && s.count + 1 < interval && n.count == s.count + 1)
  {
    hide Bounds, AfterPartial, RectOf, Rect.Accepted, Rect.Native, AfterFull;
    match e
    case PartialRefresh(r, t) => AfterPartialKeeps(s, r.Native(), t);
    case ChangedRefresh(i, t) =>
      ChoiceIsAccepted(s, i);
      if Choice(s, i).Area? {
        AfterPartialKeeps(s, Choice(s, i).rect.Native(), t);
      }
    case _ =>
  }

  /** Of any `interval` panel-refreshing changed-area calls in a row, whatever is
      drawn, sent directly or lost in between, at least one is a full refresh, or
      a full refresh was asked for among them. */
  lemma {:induction false} FullRefreshIsRegular(states: seq<Screen>, events: seq<Event>, interval: uint32)
    requires IsRun(states, events) && NoFailure(states, events) && interval > 0
    requires forall i :: 0 <= i < |events| && events[i].ChangedRefresh? ==> events[i].interval == interval
    requires Refreshing(states, events, |events|) >= interval
    ensures exists i :: 0 <= i < |events| && RefreshesWhole(states[i], events[i])
  {
    if forall i :: 0 <= i < |events| ==> !RefreshesWhole(states[i], events[i]) {
      PartialsAreCounted(states, events, interval, |events|);
      assert false;
    }
  }

  /** The step sent a window through the changed-area call. */
  predicate SendsWindow(s: Screen, e: Event) {
    e.ChangedRefresh? && s.ready && Apply(s, e).1 == Done && Choice(s, e.interval).Area?
  }

  /** The windows sent so since the last full refresh among the first `n` steps. */
  function WindowsSince(states: seq<Screen>, events: seq<Event>, n: nat): nat
    requires |states| == |events| + 1 && n <= |events|
  {
    if n == 0 || RefreshesWhole(states[n - 1], events[n - 1]) then 0
    else WindowsSince(states, events, n - 1) + if SendsWindow(states[n - 1], events[n - 1]) then 1 else 0
  }

  /** A full refresh has been done since the last loss of power. */
  predicate HasFrame(states: seq<Screen>, events: seq<Event>, n: nat)
    requires |states| == |events| + 1 && n <= |events|
  {
    n > 0 && !events[n - 1].PowerLoss? && (RefreshesWhole(states[n - 1], events[n - 1]) || HasFrame(states, events, n - 1))
  }

  lemma StepRestarts(s: Screen, e: Event)
    ensures var n := Apply(s, e).0;
            && n.valid == (!e.PowerLoss? && (RefreshesWhole(s, e) || s.valid))
            && (n.valid ==> n.count == if RefreshesWhole(s, e) then 0 else if SendsWindow(s, e) then Wrap(s.count + 1) else s.count)
  {
    hide Bounds, AfterPartial, RectOf, Rect.Accepted, Rect.Native;
    match e
    case PartialRefresh(r, t) => AfterPartialKeeps(s, r.Native(), t);
    case ChangedRefresh(i, t) =>
      ChoiceIsAccepted(s, i);
      if Choice(s, i).Area? {
        AfterPartialKeeps(s, Choice(s, i).rect.Native(), t);
      }
    case _ =>
  }

  /** In every run, failures included, a frame is retained exactly when there was a full
      refresh since the last loss of power, and the counter is then the number of
      windows sent by changed-area calls since the last full refresh. */
  lemma {:induction false} CounterIsWindowsSince(states: seq<Screen>, events: seq<Event>, n: nat)
    requires IsRun(states, events) && !states[0].valid && n <= |events|
    ensures states[n].valid <==> HasFrame(states, events, n)
    ensures states[n].valid ==> states[n].count == Wrap(WindowsSince(states, events, n))
    decreases n
  {
    hide Apply, RefreshesWhole, SendsWindow;
    if n > 0 {
      CounterIsWindowsSince(states, events, n - 1);
      StepRestarts(states[n - 1], events[n - 1]);
    }
  }

  /** In a run, only a window is sent exactly when there was a full refresh since the
      last loss of power, fewer than interval - 1 windows have been sent since, modulo
      2^32, something has changed since the frame was retained, and nothing in the
      last byte column. */
  lemma WindowInRunExactlyWhen(states: seq<Screen>, events: seq<Event>, n: nat, interval: uint32)
    requires IsRun(states, events) && !states[0].valid && n <= |events|
    ensures Choice(states[n], interval).Area? <==>
            && HasFrame(states, events, n) && (interval == 0 || Wrap(WindowsSince(states, events, n)) < interval - 1)
            && states[n].fb != states[n].retained
            && forall i :: 0 <= i < SIZE && states[n].fb[i] != states[n].retained[i] ==> i % STRIDE != STRIDE - 1
  {
    hide Choice, WindowsSince, HasFrame;
    CounterIsWindowsSince(states, events, n);
    WindowExactlyWhen(states[n], interval);
  }

  // --------------------------------------------------------------------- failures

  /** What repeated failures leave behind while the drawing stays: bytes that need
      no change are untouched; the others are old or new in each frame, and new in
      the previous plane only once they have been sent and the panel shows them. */
  predicate Halfway(s0: Screen, s: Screen) {
    forall i :: 0 <= i < SIZE ==>
      var was, will := s0.retained[i], s0.fb[i];
      && s.previous[i] in {was, will} && s.current[i] in {was, will} && s.shown[i] in {was, will}
      && (s.previous[i] == will ==> s.current[i] == s.shown[i] == will)
  }

  predicate Pending(s0: Screen, s: Screen, interval: uint32) {
    && s.fb == s0.fb && s.retained == s0.retained && s.valid == s0.valid && s.count == s0.count && s.ready == s0.ready
    && (Choice(s0, interval).Area? ==> Halfway(s0, s))
  }

  lemma SentHalfway(s0: Screen, s: Screen, w: Window)
    requires Halfway(s0, s) && s.fb == s0.fb
    ensures Halfway(s0, Sent(s, w))
  {
    hide Window.Holds;
  }

  /** After an activation the panel shows what was sent, so it may be synced. */
  lemma DrivenHalfway(s0: Screen, s: Screen, w: Window, v: Window)
    requires Halfway(s0, s) && s.fb == s0.fb && forall i :: 0 <= i < SIZE && v.Holds(i) ==> w.Holds(i)
    ensures Halfway(s0, Activated(Sent(s, w))) && Halfway(s0, Synced(Activated(Sent(s, w)), v))
  {
    hide Window.Holds;
    var active := Activated(Sent(s, w));
    forall i | 0 <= i < SIZE && w.Holds(i)
      ensures active.shown[i] == s0.fb[i]
    {
    }
  }

  lemma SomeDrivenHalfway(s0: Screen, s: Screen, driven: set<nat>)
    requires Halfway(s0, s)
    ensures Halfway(s0, s.(shown := DrivenSome(s.previous, s.current, s.shown, driven)))
  {
  }

  lemma FailureHalfway(s0: Screen, s: Screen, w: Window, t: Trouble)
    requires Halfway(s0, s) && s.fb == s0.fb && s.retained == s0.retained && t.At?
    ensures Halfway(s0, AfterPartial(s, w, t))
  {
    hide Halfway, Sent, Activated, Synced;
    SentHalfway(s0, s, w);
    SentHalfway(s0, s, w.Top(t.done));
    SomeDrivenHalfway(s0, Sent(s, w), t.driven);
    DrivenHalfway(s0, s, w, w.Top(t.done));
    DrivenHalfway(s0, s, w, w);
    var synced := Synced(Activated(Sent(s, w)), w);
    SameDrawing(s, w);
    SentHalfway(s0, synced, w);
    SentHalfway(s0, synced, w.Top(t.done));
  }

  lemma SameDrawing(s: Screen, w: Window)
    ensures Synced(Activated(Sent(s, w)), w).fb == s.fb
  {
  }

  /** The next drawing changes every byte that the failed one was to change. */
  predicate Covers(retained: Frame, failed: Frame, next: Frame) {
    forall i :: 0 <= i < SIZE && failed[i] != retained[i] ==> next[i] != retained[i]
  }

  lemma CoveringWindowAgrees(s0: Screen, n: Screen, w: Window)
    requires Halfway(s0, n) && n.valid && n.retained == s0.retained && Covers(s0.retained, s0.fb, n.fb)
    requires w == Bounds(n.fb, n.retained, SIZE)
    ensures Agreed(AfterPartial(n, w, Smooth))
  {
    hide Bounds, Window.Holds;
    AreaCoversTheChange(n.fb, n.retained);
    ChangedAreaIsSmallest(n.fb, n.retained, w);
    var m := AfterPartial(n, w, Smooth);
    forall i | 0 <= i < SIZE
      ensures m.shown[i] == n.fb[i] && m.previous[i] == n.fb[i] && m.current[i] == n.fb[i]
    {
      assert n.fb[i] != n.retained[i] ==> w.Holds(i);
    }
    assert m.shown == n.fb && m.previous == n.fb && m.current == n.fb;
  }

  lemma TryAgain(s0: Screen, s: Screen, interval: uint32, t: Trouble)
    requires s0.ready && Pending(s0, s, interval)
    ensures var (n, outcome) := Changed(s, interval, t);
            if outcome == Done then Choice(s0, interval) != Nothing ==> Agreed(n) else Pending(s0, n, interval)
  {
    hide Bounds, AfterPartial, RectOf, Rect.Accepted, Rect.Native, Halfway;
    ChoiceIsAccepted(s, interval);
    var c := Choice(s, interval);
    assert c == Choice(s0, interval);
    if c.Area? {
      AfterPartialKeeps(s, c.rect.Native(), t);
      if t.At? {
        FailureHalfway(s0, s, c.rect.Native(), t);
      } else {
        CoveringWindowAgrees(s0, s, c.rect.Native());
      }
    }
  }

  /** Trying the same drawing again repairs every failure: whatever step each of
      the earlier attempts broke off in, the first one that succeeds leaves the
      panel, the retained frame and the framebuffer equal. */
  lemma {:induction false} RetryRepairs(states: seq<Screen>, troubles: seq<Trouble>, interval: uint32, n: nat)
    requires |states| == |troubles| + 1 && n < |troubles|
    requires InSync(states[0]) && states[0].ready
    requires forall i :: 0 <= i < |troubles| ==> states[i + 1] == Changed(states[i], interval, troubles[i]).0
    requires forall i :: 0 <= i < n ==> Changed(states[i], interval, troubles[i]).1 != Done
    ensures Changed(states[n], interval, troubles[n]).1 == Done ==> Agreed(states[n + 1])
  {
    hide Changed, InSync, Agreed;
    if Choice(states[0], interval) == Nothing {
      NothingToDo(states[0], interval, troubles[0]);
    } else {
      AllPending(states, troubles, interval, n);
      TryAgain(states[0], states[n], interval, troubles[n]);
    }
  }

  lemma NothingToDo(s: Screen, interval: uint32, t: Trouble)
    requires InSync(s) && s.ready && Choice(s, interval) == Nothing
    ensures Changed(s, interval, t) == (s, Done) && Agreed(s)
  {
    hide Bounds;
  }

  lemma {:induction false} AllPending(states: seq<Screen>, troubles: seq<Trouble>, interval: uint32, n: nat)
    requires |states| == |troubles| + 1 && n < |troubles|
    requires InSync(states[0]) && states[0].ready
    requires forall i :: 0 <= i < |troubles| ==> states[i + 1] == Changed(states[i], interval, troubles[i]).0
    requires forall i :: 0 <= i < n ==> Changed(states[i], interval, troubles[i]).1 != Done
    ensures Pending(states[0], states[n], interval)
    decreases n
  {
    hide Changed, Pending;
    if n == 0 {
      PendingAtFirst(states[0], interval);
    } else {
      AllPending(states, troubles, interval, n - 1);
      TryAgain(states[0], states[n - 1], interval, troubles[n - 1]);
    }
  }

  lemma PendingAtFirst(s: Screen, interval: uint32)
    requires InSync(s)
    ensures Pending(s, s, interval)
  {
    ChoiceIsAccepted(s, interval);
  }

  /** If the attempt with trouble `t` fails, the next drawing is shown when its
      refresh, with trouble `u`, reports success. */
  predicate Repaired(s: Screen, interval: uint32, t: Trouble, next: Frame, again: uint32, u: Trouble) {
    var (n, outcome) := Changed(s, interval, t);
    var (m, result) := Changed(n.(fb := next), again, u);
    outcome == Failed && result == Done ==> Agreed(m)
  }

  lemma CoveringIsRepaired(s: Screen, interval: uint32, t: Trouble, next: Frame, again: uint32, u: Trouble)
    requires InSync(s) && s.ready && Choice(s, interval).Area?
    requires Choice(s.(fb := next), again) == Whole || Covers(s.retained, s.fb, next)
    ensures Repaired(s, interval, t, next, again, u)
  {
    hide Bounds, AfterPartial, RectOf, Rect.Accepted, Rect.Native, Halfway, Covers;
    PendingAtFirst(s, interval);
    TryAgain(s, s, interval, t);
    var (n, outcome) := Changed(s, interval, t);
    if outcome == Failed {
      var redrawn := n.(fb := next);
      assert Choice(redrawn, again) == Choice(s.(fb := next), again);
      ChoiceIsAccepted(redrawn, again);
      var c := Choice(redrawn, again);
      if c.Area? {
        HalfwayWhateverDrawn(s, n, next);
        CoveringWindowAgrees(s, redrawn, c.rect.Native());
      } else if c.Nothing? {
        NothingDoesNotCover(s, interval, next);
      }
    }
  }

  lemma HalfwayWhateverDrawn(s0: Screen, n: Screen, next: Frame)
    requires Halfway(s0, n)
    ensures Halfway(s0, n.(fb := next))
  {
  }

  lemma NothingDoesNotCover(s: Screen, interval: uint32, next: Frame)
    requires Choice(s, interval).Area? && next == s.retained
    ensures !Covers(s.retained, s.fb, next)
  {
    ChoiceIsAccepted(s, interval);
    var i :| 0 <= i < SIZE && s.fb[i] != s.retained[i];
  }

  /** A failure that the next drawing does not repair: the activation drives one
      byte the next drawing leaves as it was retained, and then breaks off. */
  lemma UncoveredIsMissed(s: Screen, interval: uint32, next: Frame, again: uint32, i: nat)
    requires InSync(s) && s.ready && Choice(s, interval).Area? && Choice(s.(fb := next), again) != Whole
    requires i < SIZE && s.fb[i] != s.retained[i] && next[i] == s.retained[i]
    ensures !Repaired(s, interval, At(Activate, 0, {i}, next), next, again, Smooth)
  {
    hide Bounds, RectOf, Rect.Accepted, Rect.Native, Window.Holds;
    var t := At(Activate, 0, {i}, next);
    ChoiceIsAccepted(s, interval);
    ChangedAreaIsSmallest(s.fb, s.retained, Window(0, STRIDE - 1, 0, ROWS - 1));
    var n := Changed(s, interval, t).0;
    assert n == AfterPartial(s, Bounds(s.fb, s.retained, SIZE), t);
    assert n.shown[i] == s.fb[i] && n.previous[i] == s.retained[i] && n.current[i] == s.fb[i];
    var redrawn := n.(fb := next);
    assert Choice(redrawn, again) == Choice(s.(fb := next), again);
    ChoiceIsAccepted(redrawn, again);
    if Choice(redrawn, again).Area? {
      StaysDriven(redrawn, Choice(redrawn, again).rect.Native(), i);
    }
  }

  lemma StaysDriven(n: Screen, w: Window, i: nat)
    requires i < SIZE && n.previous[i] == n.fb[i] != n.shown[i] && n.current[i] == n.shown[i]
    ensures AfterPartial(n, w, Smooth).shown[i] != n.fb[i]
  {
  }

  /** After a failed attempt that was to send a window, a success with the next
      drawing means that the panel shows it, whatever went wrong, if and only if
      the next refresh is a full one or the next drawing differs from the retained
      frame wherever the failed one did. */
  lemma RedrawIsRepairedExactlyWhen(s: Screen, interval: uint32, next: Frame, again: uint32)
    requires InSync(s) && s.ready && Choice(s, interval).Area?
    ensures (forall t, u :: Repaired(s, interval, t, next, again, u)) <==>
            Choice(s.(fb := next), again) == Whole || Covers(s.retained, s.fb, next)
  {
    hide Repaired, Choice, InSync;
    if Choice(s.(fb := next), again) == Whole || Covers(s.retained, s.fb, next) {
      forall t, u
        ensures Repaired(s, interval, t, next, again, u)
      {
        CoveringIsRepaired(s, interval, t, next, again, u);
      }
    } else {
      var i :| 0 <= i < SIZE && s.fb[i] != s.retained[i] && next[i] == s.retained[i];
      UncoveredIsMissed(s, interval, next, again, i);
    }
  }

  /** Drawing the old picture again after a failure is not repaired: the retained
      frame still holds that picture, so the call reports success and leaves the
      panel showing something else. */
  lemma RedrawAfterFailureIsMissed()
    ensures exists s: Screen, fb: Frame, t: Trouble ::
              && InSync(s) && s.ready && Changed(s, 50, t).1 == Failed
              && var back := Changed(s, 50, t).0.(fb := fb);
              Changed(back, 50, Smooth) == (back, Done) && back.shown != back.fb
  {
    var white, dark := Blank(SIZE, 0xFF), Blank(SIZE, 0xFF)[0 := 0x00];
    var s := Screen(dark, white, white, white, white, true, 0, true);
    var t := At(PowerOff, 0, {}, white);
    assert dark[0] != white[0];
    ChoiceIsAccepted(s, 50);
    ChangedAreaIsSmallest(dark, white, Window(0, 0, 0, 0));
    AreaRoundTrip(Bounds(dark, white, SIZE));
    assert Window(0, 0, 0, 0).Holds(0);
    var n := Changed(s, 50, t).0;
    assert n.shown[0] == 0x00;
    assert Changed(n.(fb := white), 50, Smooth) == (n.(fb := white), Done);
  }

  /** A changed refresh that reports success has retained the drawing, whatever had gone
      wrong before. */
  lemma SuccessRetainsTheDrawing(s: Screen, interval: uint32, t: Trouble)
    ensures var (n, outcome) := Changed(s, interval, t);
            outcome == Done ==> n.valid && n.retained == s.fb && n.fb == s.fb
  {
    hide Bounds, RectOf, Rect.Accepted, Rect.Native;
    ChoiceIsAccepted(s, interval);
    AreaCoversTheChange(s.fb, s.retained);
  }

  /** After a full refresh with trouble `t` has failed, byte `i` of the next drawing is
      right on the panel once its window `w` has been sent. A byte already in the
      previous plane is driven only if it differs from there. */
  predicate ByteComesRight(s: Screen, t: Trouble, next: Frame, w: Window, i: nat)
    requires i < SIZE && t.At?
  {
    match t.step
    case SyncPrevious => i < t.done && next[i] != s.retained[i] ==> next[i] != s.fb[i]
    case SendCurrent => next[i] != s.retained[i] ==> next[i] != s.fb[i]
    case Activate => (w.Holds(i) && next[i] != s.fb[i]) || t.image[i] == next[i]
    case _ => true
  }

  /** When a full refresh has failed with a frame retained, the next drawing, sent as a
      window, is shown if and only if every byte comes right in that way. */
  lemma WindowAfterFailedFullExactlyWhen(s: Screen, t: Trouble, next: Frame, again: uint32)
    requires InSync(s) && s.ready && s.valid && FullFails(t) && Choice(s.(fb := next), again).Area?
    ensures var w := Bounds(next, s.retained, SIZE); var (m, outcome) := Changed(Full(s, t).0.(fb := next), again, Smooth);
            && outcome == Done
            && (m.shown == next <==> forall i :: 0 <= i < SIZE ==> ByteComesRight(s, t, next, w, i))
  {
    hide Bounds, RectOf, Rect.Accepted, Rect.Native, ByteComesRight;
    var w, n := Bounds(next, s.retained, SIZE), Full(s, t).0.(fb := next);
    ChoiceIsAccepted(n, again);
    assert Choice(n, again) == Choice(s.(fb := next), again);
    var m := Changed(n, again, Smooth).0;
    assert m.shown == AfterPartial(n, w, Smooth).shown;
    forall i | 0 <= i < SIZE
      ensures m.shown[i] == next[i] <==> ByteComesRight(s, t, next, w, i)
    {
      ChangedAreaIsSmallest(next, s.retained, w);
      ByteShown(s, t, next, w, i);
    }
  }

  lemma ByteShown(s: Screen, t: Trouble, next: Frame, w: Window, i: nat)
    requires InSync(s) && s.valid && FullFails(t) && i < SIZE && (next[i] != s.retained[i] ==> w.Holds(i))
    ensures AfterPartial(AfterFull(s, t).(fb := next), w, Smooth).shown[i] == next[i] <==> ByteComesRight(s, t, next, w, i)
  {
    hide Window.Holds, AfterPartial;
    var n := AfterFull(s, t).(fb := next);
    ByteDriven(n, w, i);
    assert s.retained[i] == s.shown[i] == s.previous[i] == s.current[i];
  }

  /** What a smooth window leaves of one byte on the panel. */
  lemma ByteDriven(n: Screen, w: Window, i: nat)
    requires i < SIZE
    ensures var sent := if w.Holds(i) then n.fb[i] else n.current[i];
            AfterPartial(n, w, Smooth).shown[i] == if n.previous[i] != sent then sent else n.shown[i]
  {
    hide Window.Holds;
  }

  /** So, whatever goes wrong in a full refresh, the next drawing is shown on success if
      and only if it goes out as a full refresh, too. */
  lemma RedrawAfterFailedFullExactlyWhen(s: Screen, next: Frame, again: uint32)
    requires InSync(s) && s.ready && s.valid
    ensures (forall t, u :: FullRepaired(s, t, next, again, u)) <==> Choice(s.(fb := next), again) == Whole
  {
    hide FullRepaired, Choice, Bounds, RectOf;
    if Choice(s.(fb := next), again) == Whole {
      forall t, u
        ensures FullRepaired(s, t, next, again, u)
      {
        WholeRepairs(s, t, next, again, u);
      }
    } else {
      var t := At(Activate, 0, {}, next[SIZE - 1 := !next[SIZE - 1]]);
      FailedFullIsMissed(s, t, next, again);
    }
  }

  /** If the full refresh fails with trouble `t`, the next drawing is shown when its
      refresh, with trouble `u`, reports success. */
  predicate FullRepaired(s: Screen, t: Trouble, next: Frame, again: uint32, u: Trouble) {
    var (n, outcome) := Full(s, t);
    var (m, result) := Changed(n.(fb := next), again, u);
    outcome == Failed && result == Done ==> m.shown == next
  }

  lemma FailedFullKeepsChoice(s: Screen, t: Trouble, next: Frame, again: uint32)
    requires FullFails(t)
    ensures Choice(AfterFull(s, t).(fb := next), again) == Choice(s.(fb := next), again)
  {
    hide Bounds;
  }

  lemma WholeRepairs(s: Screen, t: Trouble, next: Frame, again: uint32, u: Trouble)
    requires s.ready && Choice(s.(fb := next), again) == Whole
    ensures FullRepaired(s, t, next, again, u)
  {
    hide Choice;
    if FullFails(t) {
      FailedFullKeepsChoice(s, t, next, again);
    }
  }

  lemma FailedFullIsMissed(s: Screen, t: Trouble, next: Frame, again: uint32)
    requires InSync(s) && s.ready && s.valid && Choice(s.(fb := next), again) != Whole
    requires t.Hits(Activate) && t.image[SIZE - 1] != next[SIZE - 1]
    ensures !FullRepaired(s, t, next, again, Smooth)
  {
    hide Bounds, RectOf, Rect.Accepted, Rect.Native, Window.Holds;
    FailedFullKeepsChoice(s, t, next, again);
    var n := AfterFull(s, t).(fb := next);
    if Choice(n, again).Area? {
      WindowExactlyWhen(n, again);
      ChoiceIsAccepted(n, again);
      WindowAfterFailedFullExactlyWhen(s, t, next, again);
      LastColumnIsOut(next, s.retained);
      assert !ByteComesRight(s, t, next, Bounds(next, s.retained, SIZE), SIZE - 1);
    }
  }

  lemma LastColumnIsOut(f: Frame, g: Frame)
    requires f != g && forall i :: 0 <= i < SIZE && f[i] != g[i] ==> i % STRIDE != STRIDE - 1
    ensures !Bounds(f, g, SIZE).Holds(SIZE - 1)
  {
    hide Bounds;
    var v := Window(0, STRIDE - 2, 0, ROWS - 1);
    InColumns(f, g, v);
    ChangedAreaIsSmallest(f, g, v);
  }
}
