/** The debounced push button of button_gesture.h. */
module ButtonGesture {
  import opened Clock

  const DEBOUNCE_MS: uint32 := 30
  const HOLD_MS: uint32 := 2000

  datatype ButtonEvent = ButtonEvent(pressed: bool, released: bool, shortPress: bool, longPress: bool)

  datatype ButtonState = ButtonState(
    rawPrevious: bool, debounced: bool, armed: bool, blocked: bool, longSent: bool,
    edge: uint32, pressedAt: uint32)
  {
    function Cancel(): ButtonState { this.(blocked := true) }

    function Raw(high: bool, now: uint32): ButtonState {
      if high != rawPrevious then this.(rawPrevious := high, edge := now) else this
    }

    predicate Settles(high: bool, now: uint32) {
      Elapsed(now, edge) >= DEBOUNCE_MS && high != debounced
    }

    function Debounced(high: bool, now: uint32, busy: bool): ButtonState {
      if !Settles(high, now) then this
      else if high then this.(debounced := true, armed := true, blocked := false, longSent := false)
      else if armed then this.(debounced := false, pressedAt := now, blocked := busy, longSent := false)
      else this.(debounced := false)
    }

    predicate HeldLong(high: bool, now: uint32) {
      !high && !debounced && armed && !blocked && !longSent && Elapsed(now, pressedAt) >= HOLD_MS
    }

    function Update(high: bool, now: uint32, busy: bool): ButtonState {
      var b := Raw(high, now).Debounced(high, now, busy);
      if b.HeldLong(high, now) then b.(longSent := true) else b
    }

    function Event(high: bool, now: uint32, busy: bool): ButtonEvent {
      var raw := Raw(high, now);
      var settles := raw.Settles(high, now);
      ButtonEvent(
        pressed := settles && !high && armed,
        released := settles && high,
        shortPress := settles && high && armed && !blocked && !longSent,
        longPress := raw.Debounced(high, now, busy).HeldLong(high, now))
    }

    /** A contact that can still turn into a long press. */
    predicate Live() { !debounced && armed && !blocked && !longSent }
  }

  function Initial(high: bool, now: uint32): ButtonState {
    ButtonState(high, high, high, !high, false, now, 0)
  }

  class Button {
    var rawPrevious: bool
    var debounced: bool
    var armed: bool
    var blocked: bool
    var longSent: bool
    var edge: uint32
    var pressedAt: uint32

    ghost function State(): ButtonState
      reads this
    {
      ButtonState(rawPrevious, debounced, armed, blocked, longSent, edge, pressedAt)
    }

    constructor (high: bool, now: uint32)
      ensures State() == Initial(high, now)
    {
      rawPrevious, debounced, armed, blocked, longSent := high, high, high, !high, false;
      edge, pressedAt := now, 0;
    }

    method CancelUntilRelease()
      modifies this
      ensures State() == old(State()).Cancel() && !State().Live()
      ensures forall high, now, busy :: var e := State().Event(high, now, busy); !e.shortPress && !e.longPress
    {
      blocked := true;
    }

    method Update(high: bool, now: uint32, busy: bool) returns (e: ButtonEvent)
      modifies this
      ensures State() == old(State()).Update(high, now, busy)
      ensures e == old(State()).Event(high, now, busy)
    {
      e := ButtonEvent(false, false, false, false);
      if high != rawPrevious {
        rawPrevious := high;
        edge := now;
      }
      if Elapsed(now, edge) >= DEBOUNCE_MS && high != debounced {
        debounced := high;
        if high {
          e := e.(released := true, shortPress := armed && !blocked && !longSent);
          armed, blocked, longSent := true, false, false;
        } else if armed {
          e := e.(pressed := true);
          pressedAt := now;
          blocked := busy;
          longSent := false;
        }
      }
      if !high && !debounced && armed && !blocked && !longSent && Elapsed(now, pressedAt) >= HOLD_MS {
        e := e.(longPress := true);
        longSent := true;
      }
    }
  }

  datatype Poll = Poll(high: bool, now: uint32, busy: bool)

  function After(b: ButtonState, polls: seq<Poll>): ButtonState {
    if polls == [] then b
    else
      var p := polls[|polls| - 1];
      After(b, polls[..|polls| - 1]).Update(p.high, p.now, p.busy)
  }

  /** What the last of these polls reported. */
  function LastEvent(b: ButtonState, polls: seq<Poll>): ButtonEvent
    requires polls != []
  {
    var p := polls[|polls| - 1];
    After(b, polls[..|polls| - 1]).Event(p.high, p.now, p.busy)
  }

  /** A contact cancelled while the button is down does nothing more: until its
      release is reported there is no gesture at all, and the release itself is
      not a short press, however the raw level bounces and the clock wraps. */
  lemma {:induction false} CancelledContactIsInert(b: ButtonState, polls: seq<Poll>)
    requires !b.debounced && b.armed && b.blocked && polls != []
    requires forall k :: 0 < k < |polls| ==> !LastEvent(b, polls[..k]).released
    ensures var e := LastEvent(b, polls); !e.pressed && !e.shortPress && !e.longPress
    ensures !LastEvent(b, polls).released ==> After(b, polls).(edge := b.edge, rawPrevious := b.rawPrevious) == b
    decreases |polls|
  {
    var init := polls[..|polls| - 1];
    if init != [] {
      assert forall k :: 0 < k < |init| ==> init[..k] == polls[..k];
      CancelledContactIsInert(b, init);
    }
  }

  /** A press reports at most one gesture: once it has fired as a long press, its
      release is not a short press and no second long press comes before it. */
  lemma {:induction false} LongPressFiresOnce(b: ButtonState, polls: seq<Poll>)
    requires !b.debounced && b.armed && b.longSent && polls != []
    requires forall k :: 0 < k < |polls| ==> !LastEvent(b, polls[..k]).released
    ensures var e := LastEvent(b, polls); !e.pressed && !e.shortPress && !e.longPress
    ensures !LastEvent(b, polls).released ==> var b' := After(b, polls); !b'.debounced && b'.armed && b'.longSent
    decreases |polls|
  {
    var init := polls[..|polls| - 1];
    if init != [] {
      assert forall k :: 0 < k < |init| ==> init[..k] == polls[..k];
      LongPressFiresOnce(b, init);
    }
  }

  function EventAt(b: ButtonState, polls: seq<Poll>, k: nat): ButtonEvent
    requires k < |polls|
  {
    LastEvent(b, polls[..k + 1])
  }

  /** Poll `i` accepted a press; since then neither a release nor a long press. */
  predicate PressedAt(b: ButtonState, polls: seq<Poll>, i: int) {
    && 0 <= i < |polls| && !polls[i].busy && EventAt(b, polls, i).pressed
    && forall k :: i < k < |polls| ==> !EventAt(b, polls, k).released && !EventAt(b, polls, k).longPress
  }

  lemma SameEvent(b: ButtonState, polls: seq<Poll>, last: nat, k: nat)
    requires k < last < |polls|
    ensures EventAt(b, polls[..last], k) == EventAt(b, polls, k)
  {
    assert polls[..last][..k + 1] == polls[..k + 1];
  }

  lemma {:induction false} LiveWasPressed(b: ButtonState, polls: seq<Poll>) returns (i: int)
    requires !b.Live()
    ensures After(b, polls).Live() ==> PressedAt(b, polls, i) && After(b, polls).pressedAt == polls[i].now
    decreases |polls|
  {
    i := 0;
    if polls != [] {
      var last := |polls| - 1;
      i := LiveWasPressed(b, polls[..last]);
      assert polls[..last + 1] == polls;
      if After(b, polls).Live() {
        if LastEvent(b, polls).pressed {
          i := last;
        } else {
          SameEvent(b, polls, last, i);
          forall k | i < k < |polls|
            ensures !EventAt(b, polls, k).released && !EventAt(b, polls, k).longPress
          {
            if k < last {
              SameEvent(b, polls, last, k);
            }
          }
        }
      }
    }
  }

  /** Every gesture is earned. A short press is the release, and a long press the
      holding for two seconds, of a press that was accepted while nothing was busy,
      with no release and no long press in between. */
  lemma GesturesAreEarned(high: bool, now: uint32, polls: seq<Poll>, p: Poll) returns (i: int)
    ensures var b := Initial(high, now); var e := LastEvent(b, polls + [p]);
            && (e.shortPress ==> p.high && PressedAt(b, polls, i))
            && (e.longPress ==> !p.high && PressedAt(b, polls, i) && Elapsed(p.now, polls[i].now) >= HOLD_MS)
  {
    var b := Initial(high, now);
    i := LiveWasPressed(b, polls);
    assert (polls + [p])[..|polls|] == polls;
  }

  lemma {:induction false} PressedIsLive(b: ButtonState, polls: seq<Poll>, i: int)
    requires PressedAt(b, polls, i)
    ensures After(b, polls).Live() && After(b, polls).pressedAt == polls[i].now
    decreases |polls|
  {
    var last := |polls| - 1;
    assert polls[..last + 1] == polls;
    if i < last {
      SameEvent(b, polls, last, i);
      forall k | i < k < last
        ensures !EventAt(b, polls[..last], k).released && !EventAt(b, polls[..last], k).longPress
      {
        SameEvent(b, polls, last, k);
      }
      PressedIsLive(b, polls[..last], i);
      assert !EventAt(b, polls, last).released && !EventAt(b, polls, last).longPress;
    }
  }

  /** Gestures, exactly: a short press is the release of a press that was accepted and
      has not been a long press; a long press comes at the first poll at which such a
      press has been held for two seconds. */
  lemma GesturesExactlyWhen(high: bool, now: uint32, polls: seq<Poll>, p: Poll)
    ensures var b := Initial(high, now); var e := LastEvent(b, polls + [p]);
            && (e.shortPress <==> e.released && exists i :: PressedAt(b, polls, i))
            && (e.longPress <==> !p.high && exists i :: PressedAt(b, polls, i) && Elapsed(p.now, polls[i].now) >= HOLD_MS)
  {
    var b := Initial(high, now);
    var e := LastEvent(b, polls + [p]);
    var j := GesturesAreEarned(high, now, polls, p);
    assert (polls + [p])[..|polls|] == polls;
    if i :| PressedAt(b, polls, i) {
      PressedIsLive(b, polls, i);
    }
    if !p.high && exists i :: PressedAt(b, polls, i) && Elapsed(p.now, polls[i].now) >= HOLD_MS {
      var i :| PressedAt(b, polls, i) && Elapsed(p.now, polls[i].now) >= HOLD_MS;
      PressedIsLive(b, polls, i);
    }
  }

  /** The level last reported; at first, the level at the start. */
  function Reported(high: bool, now: uint32, polls: seq<Poll>): bool {
    if polls == [] then high
    else
      var e := LastEvent(Initial(high, now), polls);
      if e.pressed then false else if e.released then true else Reported(high, now, polls[..|polls| - 1])
  }

  lemma {:induction false} ReportedLevel(high: bool, now: uint32, polls: seq<Poll>)
    ensures var b := After(Initial(high, now), polls); b.debounced == Reported(high, now, polls) && (b.debounced ==> b.armed)
    decreases |polls|
  {
    if polls != [] {
      ReportedLevel(high, now, polls[..|polls| - 1]);
    }
  }

  /** Since poll `j` the raw level has been what it is now. */
  predicate SteadySince(polls: seq<Poll>, j: int) {
    0 <= j < |polls| && forall k :: j <= k < |polls| ==> polls[k].high == polls[|polls| - 1].high
  }

  /** The level came up at poll `j` and has stayed. */
  predicate SinceEdge(polls: seq<Poll>, j: int) {
    SteadySince(polls, j) && (j > 0 ==> polls[j - 1].high != polls[j].high)
  }

  lemma {:induction false} EdgeIsSteady(high: bool, now: uint32, polls: seq<Poll>) returns (j: int)
    ensures var s := After(Initial(high, now), polls);
            && (polls != [] ==> s.rawPrevious == polls[|polls| - 1].high)
            && (s.debounced != s.rawPrevious ==> SinceEdge(polls, j) && s.edge == polls[j].now)
    decreases |polls|
  {
    j := 0;
    if polls != [] {
      var last := |polls| - 1;
      j := EdgeIsSteady(high, now, polls[..last]);
      var before := After(Initial(high, now), polls[..last]);
      if polls[last].high != before.rawPrevious {
        j := last;
      }
    }
  }

  /** Nothing is reported on a bounce: a press or release that is reported has been
      the raw level at every poll for the debounce time. */
  lemma BouncesAreIgnored(high: bool, now: uint32, polls: seq<Poll>) returns (j: int)
    requires polls != []
    ensures var e := LastEvent(Initial(high, now), polls); var p := polls[|polls| - 1];
            e.pressed || e.released ==>
              SteadySince(polls, j) && Elapsed(p.now, polls[j].now) >= DEBOUNCE_MS && p.high == e.released
  {
    var last := |polls| - 1;
    j := EdgeIsSteady(high, now, polls[..last]);
    if polls[last].high != After(Initial(high, now), polls[..last]).rawPrevious {
      j := last;
    }
  }

  /** Reports, exactly: a press or release is reported if and only if the raw level is
      not the one last reported and came up at least 30 ms ago. */
  lemma ReportsExactlyWhen(high: bool, now: uint32, polls: seq<Poll>, p: Poll)
    ensures var e, all := LastEvent(Initial(high, now), polls + [p]), polls + [p];
            && (e.pressed || e.released <==>
                  p.high != Reported(high, now, polls) &&
                  exists j :: SinceEdge(all, j) && Elapsed(p.now, all[j].now) >= DEBOUNCE_MS)
            && (e.pressed ==> !p.high) && (e.released ==> p.high)
  {
    var all, b := polls + [p], After(Initial(high, now), polls);
    assert all[..|polls|] == polls;
    ReportedLevel(high, now, polls);
    if p.high != b.debounced {
      var raw := b.Raw(p.high, p.now);
      var j := EdgeIsSteady(high, now, polls);
      if p.high != b.rawPrevious {
        j := |polls|;
        LastLevel(high, now, polls);
      } else {
        assert forall k :: 0 <= k < |polls| ==> all[k] == polls[k];
        LastLevel(high, now, polls);
      }
      assert SinceEdge(all, j) && raw.edge == all[j].now;
      forall i | SinceEdge(all, i)
        ensures i == j
      {
        OneEdge(all, i, j);
      }
    }
  }

  lemma {:induction false} LastLevel(high: bool, now: uint32, polls: seq<Poll>)
    ensures After(Initial(high, now), polls).rawPrevious == if polls == [] then high else polls[|polls| - 1].high
  {
  }

  lemma OneEdge(polls: seq<Poll>, i: int, j: int)
    requires SinceEdge(polls, i) && SinceEdge(polls, j)
    ensures i == j
  {
  }
}
