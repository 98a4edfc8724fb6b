/** The automatic pour machine of control.h: readiness while idle, supervision
    while pouring. `Control` changes its fields in place; each method is proved
    against a function of the same name on `ControlState`. */
module PourControl {
  import opened Clock
  import opened TapTypes

  const STARTUP_DROPOUT_WINDOW_MS: uint32 := 250
  const STARTUP_RECOVERY_MS: uint32 := 350
  const NO_RETURN: int := 65535

  datatype ControlState = ControlState(
    pouring: bool, dropoutUsed: bool, dropoutPending: bool, reason: Reason,
    seen: uint32, lastValid: uint32, started: uint32,
    previous: int, count: nat, low: int, high: int)
  {
    function ResetReady(): ControlState {
      this.(dropoutUsed := false, dropoutPending := false, count := 0, previous := 0, lastValid := 0)
    }

    function Stop(why: Reason): ControlState {
      this.(pouring := false, reason := why).ResetReady()
    }

    predicate Ready(c: Settings, now: uint32) {
      c.servoCalibrated && c.distanceCalibrated && count >= 5 &&
      Elapsed(now, lastValid) <= c.staleMs
    }

    function Start(c: Settings, now: uint32): ControlState {
      if Ready(c, now)
      then this.(dropoutUsed := false, dropoutPending := false, pouring := true, started := now,
                 reason := PouringNow)
      else this.(reason := StartRejected)
    }

    function Update(c: Settings, s: Sample, now: uint32): ControlState {
      if pouring && Elapsed(now, started) >= c.maxPourMs then Stop(MaximumTime)
      else if pouring && Elapsed(now, lastValid) > c.staleMs then Stop(Stale)
      else if pouring && dropoutPending && Elapsed(now, started) >= STARTUP_RECOVERY_MS then
        Stop(RecoveryTimeout)
      else if s.sequence == seen then this
      else
        var next := this.(seen := s.sequence);
        if !s.Fresh(c, now) then next.Unusable(c, s, now)
        else if pouring then next.WhilePouring(c, s)
        else next.WhileIdle(c, s)
    }

    /** A reading that is invalid or too old. */
    function Unusable(c: Settings, s: Sample, now: uint32): ControlState {
      if !pouring then ResetReady()
      else if IgnorableSentinel(c, s, now) then this.(dropoutUsed := true, dropoutPending := true)
      else Stop(Invalid)
    }

    predicate IgnorableSentinel(c: Settings, s: Sample, now: uint32) {
      !dropoutUsed && !s.valid && s.mm == NO_RETURN &&
      Elapsed(now, started) < STARTUP_DROPOUT_WINDOW_MS && Elapsed(now, s.at) <= c.staleMs
    }

    function WhilePouring(c: Settings, s: Sample): ControlState {
      var next := this.(dropoutPending := false);
      if s.mm <= c.stopMm then next.Stop(FillTarget)
      else if s.mm > c.maxMm || s.mm >= c.trayMm - 20 then next.Stop(OutOfRange)
      else if previous != 0 && Distance(s.mm, previous) > c.jumpMm then next.Stop(Erratic)
      else next.(previous := s.mm, lastValid := s.at)
    }

    function WhileIdle(c: Settings, s: Sample): ControlState {
      var d := s.StableDistance();
      if d <= c.stopMm || d > c.maxMm || s.mm <= c.stopMm || s.mm >= c.trayMm - 20 then ResetReady()
      else
        var base := if count != 0 && Elapsed(s.at, lastValid) > c.staleMs then ResetReady() else this;
        base.Counted(c, d).(previous := s.mm, lastValid := s.at)
    }

    function Counted(c: Settings, d: int): ControlState {
      if count == 0 then this.(low := d, high := d, count := 1)
      else if Max(high, d) - Min(low, d) > c.stableMm then this.(low := d, high := d, count := 1)
      else this.(low := Min(low, d), high := Max(high, d), count := Min(count + 1, 5))
    }
  }

  function Min(a: int, b: int): int { if b < a then b else a }

  function Max(a: int, b: int): int { if a < b then b else a }

  function Distance(a: int, b: int): int { if a < b then b - a else a - b }

  const BOOT_STATE: ControlState := ControlState(false, false, false, Boot, 0, 0, 0, 0, 0, 0, 0)

  class Control {
    var pouring: bool
    var dropoutUsed: bool
    var dropoutPending: bool
    var reason: Reason
    var seen: uint32
    var lastValid: uint32
    var started: uint32
    var previous: int
    var count: nat
    var low: int
    var high: int

    ghost function State(): ControlState
      reads this
    {
      ControlState(pouring, dropoutUsed, dropoutPending, reason, seen, lastValid, started, previous, count, low, high)
    }

    constructor ()
      ensures State() == BOOT_STATE
    {
      pouring, dropoutUsed, dropoutPending, reason := false, false, false, Boot;
      seen, lastValid, started := 0, 0, 0;
      previous, count, low, high := 0, 0, 0, 0;
    }

    method ResetReady()
      modifies this
      ensures State() == old(State()).ResetReady()
    {
      dropoutUsed := false;
      dropoutPending := false;
      count := 0;
      previous := 0;
      lastValid := 0;
    }

    method Stop(why: Reason)
      modifies this
      ensures State() == old(State()).Stop(why)
      ensures reason == why && !pouring
    {
      pouring := false;
      reason := why;
      ResetReady();
    }

    method Ready(c: Settings, now: uint32) returns (ready: bool)
      ensures ready == State().Ready(c, now)
      ensures !pouring ==> (ready <==> State().Start(c, now).pouring)
      ensures ready && c.maxPourMs > 0 ==>
                forall x: Sample :: x.sequence == seen ==> State().Start(c, now).Update(c, x, now) == State().Start(c, now)
    {
      ready := c.servoCalibrated && c.distanceCalibrated && count >= 5 &&
               Elapsed(now, lastValid) <= c.staleMs;
    }

    method Start(c: Settings, now: uint32) returns (ok: bool)
      modifies this
      ensures ok == old(State()).Ready(c, now)
      ensures State() == old(State()).Start(c, now)
    {
      ok := Ready(c, now);
      if !ok {
        reason := StartRejected;
        return;
      }
      dropoutUsed := false;
      dropoutPending := false;
      pouring := true;
      started := now;
      reason := PouringNow;
    }

    method Update(c: Settings, s: Sample, now: uint32)
      modifies this
      ensures State() == old(State()).Update(c, s, now)
    {
      if pouring && Elapsed(now, started) >= c.maxPourMs {
        Stop(MaximumTime);
        return;
      }
      if pouring && Elapsed(now, lastValid) > c.staleMs {
        Stop(Stale);
        return;
      }
      if pouring && dropoutPending && Elapsed(now, started) >= STARTUP_RECOVERY_MS {
        Stop(RecoveryTimeout);
        return;
      }
      if s.sequence == seen {
        return;
      }
      seen := s.sequence;
      if !s.valid || Elapsed(now, s.at) > c.staleMs {
        if pouring {
          if !dropoutUsed && !s.valid && s.mm == NO_RETURN &&
             Elapsed(now, started) < STARTUP_DROPOUT_WINDOW_MS && Elapsed(now, s.at) <= c.staleMs {
            dropoutUsed, dropoutPending := true, true;
            return;
          }
          Stop(Invalid);
        } else {
          ResetReady();
        }
        return;
      }
      if pouring {
        UpdatePour(c, s);
      } else {
        UpdateReadiness(c, s);
      }
    }

    method UpdatePour(c: Settings, s: Sample)
      modifies this
      ensures State() == old(State()).WhilePouring(c, s)
    {
      dropoutPending := false;
      if s.mm <= c.stopMm {
        Stop(FillTarget);
        return;
      }
      if s.mm > c.maxMm || s.mm >= c.trayMm - 20 {
        Stop(OutOfRange);
        return;
      }
      if previous != 0 && Distance(s.mm, previous) > c.jumpMm {
        Stop(Erratic);
        return;
      }
      previous := s.mm;
      lastValid := s.at;
    }

    method UpdateReadiness(c: Settings, s: Sample)
      modifies this
      ensures State() == old(State()).WhileIdle(c, s)
    {
      var d := s.StableDistance();
      if d <= c.stopMm || d > c.maxMm || s.mm <= c.stopMm || s.mm >= c.trayMm - 20 {
        ResetReady();
        return;
      }
      if count != 0 && Elapsed(s.at, lastValid) > c.staleMs {
        ResetReady();
      }
      if count == 0 {
        low, high := d, d;
        count := 1;
      } else {
        low := Min(low, d);
        high := Max(high, d);
        if high - low > c.stableMm {
          low, high := d, d;
          count := 1;
        } else {
          count := Min(count + 1, 5);
        }
      }
      previous := s.mm;
      lastValid := s.at;
    }
  }
}
