/** Calibration settings and LiDAR samples shared by the tap modules. The limits
    in milliseconds are compared with unsigned differences; settings in use have
    passed `Valid`, so the conversion to unsigned never changes them. */
module TapTypes {
  import opened Clock

  type int16 = n: int | -0x8000 <= n < 0x8000
  type int32 = n: int | -0x8000_0000 <= n < 0x8000_0000

  datatype Settings = Settings(
    version: int, closedUs: int, openUs: int, stopMm: int, minMm: int, maxMm: int, trayMm: int,
    stableMm: int, jumpMm: int, staleMs: int, maxPourMs: int,
    servoCalibrated: bool, distanceCalibrated: bool)
  {
    predicate Valid() {
      && version == 1
      && 500 <= closedUs <= 2500
      && 500 <= openUs <= 2500
      && (servoCalibrated ==> closedUs != openUs)
      && 20 <= stopMm < minMm < maxMm < trayMm - 20
      && 50 <= trayMm <= 2000
      && 1 <= stableMm <= 100
      && 10 <= jumpMm <= 500
      && 150 <= staleMs <= 500
      && 1000 <= maxPourMs <= 120000
    }

    /** A per-pour copy with another cutoff; the stored calibration is not touched. */
    function ForTarget(target: int): Settings { this.(stopMm := target) }

    predicate ValidHalfTarget(target: int) {
      target == 0 || stopMm < target < maxMm
    }
  }

  /** `filteredMm` is the filter output as `lround` gives it, the only form in
      which the controller uses it. */
  datatype Sample = Sample(
    mm: int32, status: int32, valid: bool, at: uint32, sequence: uint32, filteredMm: int, filteredValid: bool)
  {
    function StableDistance(): int {
      if filteredValid then filteredMm else mm
    }

    /** Valid and, at `now`, no older than the staleness limit. */
    predicate Fresh(c: Settings, now: uint32) {
      valid && Elapsed(now, at) <= c.staleMs
    }
  }

  datatype Reason =
    | Boot | Starting | PouringNow | MaximumTime | Stale | RecoveryTimeout | Invalid | FillTarget
    | OutOfRange | Erratic | StartRejected | HalfPour | HalfUnavailable | ServoTest | TestCompleted
    | ButtonReleased | ManualFill | ManualRejected | Update | UpdateFailed | TapLocked
    | EmergencyStop | TapClosed | ManualClose | SettingsSaved | PwmFailure
}
