/** The LiDAR's timing arithmetic (VL53L0X.cpp): step timeouts as a mantissa and a
    shift in 16 bits, conversions between macro clocks and microseconds, and the
    measurement timing budget built on them. */
module RangingBudget {
  import opened Clock
  import opened Crc

  type uint16 = n: int | 0 <= n < 0x1_0000

  function Pow2(n: nat): (p: nat)
    ensures p >= 1
  {
    if n == 0 then 1 else 2 * Pow2(n - 1)
  }

  // -------------------------------------------------------------------- encoding

  /** Mantissa and shift after halving down to a byte. */
  function Squeezed(v: nat, shift: nat): (r: (nat, nat))
    ensures r.0 < 0x100 && r.1 >= shift
  {
    if v < 0x100 then (v, shift) else Squeezed(v / 2, shift + 1)
  }

  function Encode(t: uint32): int {
    if t == 0 then 0 else Squeezed(t - 1, 0).1 * 0x100 + Squeezed(t - 1, 0).0
  }

  /** The product is cut to 16 bits, and so is its successor. */
  function Decode(reg: uint16): uint16 {
    (reg % 0x100 * Pow2(reg / 0x100) % 0x1_0000 + 1) % 0x1_0000
  }

  /** The register format: a mantissa byte shifted left by the high byte, plus one. */
  lemma RegisterFormat(mantissa: byte, shift: byte)
    requires mantissa * Pow2(shift) < 0xFFFF
    ensures Decode(0x100 * shift + mantissa) == mantissa * Pow2(shift) + 1
  {
    hide Pow2;
    assert (0x100 * shift + mantissa) % 0x100 == mantissa && (0x100 * shift + mantissa) / 0x100 == shift;
  }

  method EncodeTimeout(t: uint32) returns (reg: uint16)
    ensures reg == Encode(t)
  {
    var ls, ms := 0, 0;
    if t > 0 {
      ls := t - 1;
      SmallPowers();
      ShiftIsSmall(t - 1, 0, 24);
      while ls >= 0x100
        invariant ls >= 0 && ms >= 0 && Squeezed(t - 1, 0) == Squeezed(ls, ms)
      {
        ls := ls / 2;
        ms := ms + 1;
      }
      return ms * 0x100 + ls;
    } else {
      return 0;
    }
  }

  lemma {:induction false} ShiftIsSmall(v: nat, shift: nat, n: nat)
    requires v < 0x100 * Pow2(n)
    ensures Squeezed(v, shift).1 <= shift + n
    decreases n
  {
    if v >= 0x100 {
      ShiftIsSmall(v / 2, shift + 1, n - 1);
    }
  }

  /** What is left of a value after encoding: its leading eight bits. */
  function Leading(v: nat): nat { if v < 0x100 then v else 2 * Leading(v / 2) }

  lemma {:induction false} LeadingIsSqueezed(v: nat, shift: nat)
    ensures var (ls, ms) := Squeezed(v, shift); Leading(v) == ls * Pow2(ms - shift)
    decreases v
  {
    if v >= 0x100 {
      LeadingIsSqueezed(v / 2, shift + 1);
      var (ls, ms) := Squeezed(v, shift);
      assert Pow2(ms - shift) == 2 * Pow2(ms - shift - 1);
    }
  }

  /** The loss is less than one part in 128. */
  lemma {:induction false} LeadingLoss(v: nat)
    ensures Leading(v) <= v
    ensures v < 0x100 ==> Leading(v) == v
    ensures v >= 0x100 ==> Leading(v) >= 0x100 && 128 * (v - Leading(v) + 1) <= v
    decreases v
  {
    if v >= 0x100 {
      LeadingLoss(v / 2);
    }
  }

  lemma {:induction false} LeadingIsStable(v: nat, shift: nat)
    ensures Leading(Leading(v)) == Leading(v) && Squeezed(Leading(v), shift) == Squeezed(v, shift)
    decreases v
  {
    LeadingLoss(v);
    if v >= 0x100 {
      LeadingIsStable(v / 2, shift + 1);
      assert Leading(v) / 2 == Leading(v / 2);
    }
  }

  lemma {:induction false} LeadingIsMonotone(a: nat, b: nat)
    requires a <= b
    ensures Leading(a) <= Leading(b)
    decreases b
  {
    LeadingLoss(a);
    LeadingLoss(b);
    if a >= 0x100 {
      LeadingIsMonotone(a / 2, b / 2);
    }
  }

  lemma {:induction false} LeadingOfShifted(ls: nat, ms: nat)
    requires ls < 0x100
    ensures Leading(ls * Pow2(ms)) == ls * Pow2(ms)
    decreases ms
  {
    if ms > 0 {
      LeadingOfShifted(ls, ms - 1);
      assert ls * Pow2(ms) == 2 * (ls * Pow2(ms - 1));
    }
  }

  lemma {:induction false} LeadingFits(v: nat)
    requires v <= 0xFFFF
    ensures Leading(v) <= 0xFF00
  {
    LeadingIsMonotone(v, 0xFFFF);
    assert 0xFFFF / 2 == 0x7FFF;
    assert Leading(0xFF) == 0xFF && Leading(0x1FF) == 0x1FE && Leading(0x3FF) == 0x3FC && Leading(0x7FF) == 0x7F8;
    assert Leading(0xFFF) == 0xFF0 && Leading(0x1FFF) == 0x1FE0 && Leading(0x3FFF) == 0x3FC0;
    assert Leading(0x7FFF) == 0x7F80 && Leading(0xFFFF) == 0xFF00;
  }

  lemma {:induction false} EncodedParts(t: uint32)
    requires t > 0
    ensures 0 <= Encode(t) < 0x1_0000
    ensures Encode(t) % 0x100 == Squeezed(t - 1, 0).0 && Encode(t) / 0x100 == Squeezed(t - 1, 0).1
  {
    SmallPowers();
    ShiftIsSmall(t - 1, 0, 24);
  }

  /** What a stored timeout decodes to. */
  lemma {:induction false} DecodesTo(t: uint32)
    requires t > 0
    ensures 0 <= Encode(t) < 0x1_0000 && Decode(Encode(t)) == (Leading(t - 1) % 0x1_0000 + 1) % 0x1_0000
  {
    EncodedParts(t);
    LeadingIsSqueezed(t - 1, 0);
  }

  lemma {:induction false} ShortTimeout(v: nat)
    requires v < 0x1_0000
    ensures var f := Leading(v);
            f % 0x1_0000 == f && (f + 1) % 0x1_0000 == f + 1 && f <= v && 128 * (v - f) <= v && Squeezed(f, 0) == Squeezed(v, 0)
  {
    hide Leading, Squeezed;
    LeadingLoss(v);
    LeadingFits(v);
    LeadingIsStable(v, 0);
  }

  lemma {:induction false} LongTimeout(v: nat)
    requires v >= 0x1_0000
    ensures var d := (Leading(v) % 0x1_0000 + 1) % 0x1_0000; 128 * (v + 1 - d) > v
  {
    hide Leading;
    LeadingIsMonotone(0x1_0000, v);
    LeadingOfShifted(0x80, 9);
    SmallPowers();
    LeadingLoss(v);
    var f := Leading(v);
    assert f % 0x1_0000 <= f - 0x1_0000;
  }

  /** Reading a stored timeout back never gives more, and loses at most one part in
      128, if and only if it is at most 65536; storing what was read stores the
      same. */
  lemma {:induction false} TimeoutRoundTrip(t: uint32)
    requires t > 0
    ensures 0 <= Encode(t) < 0x1_0000
    ensures var d := Decode(Encode(t));
            && (t <= 0x1_0000 <==> d <= t && 128 * (t - d) <= t - 1)
            && (t <= 0x1_0000 ==> d == Leading(t - 1) + 1 && Encode(d) == Encode(t))
  {
    hide Decode, Leading, Squeezed;
    DecodesTo(t);
    if t <= 0x1_0000 {
      ShortTimeout(t - 1);
    } else {
      LongTimeout(t - 1);
    }
  }

  lemma TruncatedMultiple(x: nat)
    ensures var v := 0x100 * x % 0x1_0000;
            v == 0x100 * (x % 0x100) && (v + 1) % 0x1_0000 == v + 1
  {
    var q := x / 0x100;
    assert x == 0x100 * q + x % 0x100;
    assert 0x100 * x == 0x1_0000 * q + 0x100 * (x % 0x100);
  }

  lemma {:induction false} DecodesToProduct(ls: nat, ms: nat)
    requires ls < 0x100
    ensures var v := ls * Pow2(ms) % 0x1_0000; (v + 1) % 0x1_0000 == v + 1 && Leading(v) == v
  {
    hide Pow2, Leading;
    if ms < 8 {
      SmallShift(ls, ms);
      LeadingOfShifted(ls, ms);
    } else {
      var x := ls * Pow2(ms - 8);
      ShiftByEight(ls, ms);
      TruncatedMultiple(x);
      LeadingOfShifted(x % 0x100, 8);
      SmallPowers();
    }
  }

  /** Every register value decodes to a timeout that is stored without loss. */
  lemma DecodedIsExact(reg: uint16)
    ensures var d := Decode(reg); d >= 1 && Leading(d - 1) == d - 1
  {
    hide Pow2, Leading;
    DecodesToProduct(reg % 0x100, reg / 0x100);
  }

  lemma SmallPowers()
    ensures Pow2(8) == 0x100 && Pow2(9) == 0x200 && Pow2(24) == 0x100_0000
  {
    PowSplits(0);
    PowSplits(8);
    PowSplits(16);
  }

  lemma {:induction false} PowSplits(n: nat)
    ensures Pow2(n + 8) == 0x100 * Pow2(n)
    decreases n
  {
    if n == 0 {
      assert Pow2(1) == 2 && Pow2(2) == 4 && Pow2(3) == 8 && Pow2(4) == 16 && Pow2(5) == 32 && Pow2(6) == 64 && Pow2(7) == 128;
    } else {
      PowSplits(n - 1);
    }
  }

  lemma {:induction false} SmallShift(ls: nat, ms: nat)
    requires ls < 0x100 && ms < 8
    ensures ls * Pow2(ms) <= 0xFF * 128 && ls * Pow2(ms) % 0x1_0000 == ls * Pow2(ms)
  {
    assert Pow2(1) == 2 && Pow2(2) == 4 && Pow2(3) == 8 && Pow2(4) == 16 && Pow2(5) == 32 && Pow2(6) == 64 && Pow2(7) == 128;
    assert Pow2(ms) <= 128;
  }

  lemma ShiftByEight(ls: nat, ms: nat)
    requires ms >= 8
    ensures ls * Pow2(ms) == 0x100 * (ls * Pow2(ms - 8))
  {
    PowSplits(ms - 8);
  }

  // --------------------------------------------------------------------- the budget

  /** Nanoseconds of a macro clock at a pulse period, and the two conversions, in
      the source's 32-bit arithmetic. */
  function MacroPeriod(pclks: byte): uint32 { (2304 * pclks * 1655 + 500) / 1000 }

  function ToMicroseconds(mclks: uint16, pclks: byte): uint32 {
    Wrap(Wrap(mclks * MacroPeriod(pclks)) + 500) / 1000
  }

  function ToMclks(us: uint32, pclks: byte): uint32
    requires pclks > 0
  {
    Wrap(Wrap(us * 1000) + MacroPeriod(pclks) / 2) / MacroPeriod(pclks)
  }

  const START_AND_END: int := 1910 + 960
  const MSRC: int := 660
  const TCC: int := 590
  const DSS: int := 690
  const PRE_RANGE: int := 660
  const FINAL_RANGE: int := 550

  /** The registers the budget depends on. */
  datatype Registers = Registers(
    tcc: bool, dss: bool, msrc: bool, preRange: bool, finalRange: bool,
    msrcTimeout: byte, preTimeout: uint16, finalTimeout: uint16, prePclks: byte, finalPclks: byte)
  {
    /** The pulse periods are never 0 on a working sensor. */
    predicate Valid() { prePclks > 0 && finalPclks > 0 }

    function MsrcUs(): uint32 { ToMicroseconds(msrcTimeout + 1, prePclks) }

    function PreUs(): uint32 { ToMicroseconds(Decode(preTimeout), prePclks) }

    /** The final range timeout includes the pre-range one; 16 bits. */
    function FinalMclks(): uint16 {
      if preRange then (Decode(finalTimeout) - Decode(preTimeout)) % 0x1_0000 else Decode(finalTimeout)
    }

    function FinalUs(): uint32 { ToMicroseconds(FinalMclks(), finalPclks) }

    /** All steps but the final range. */
    function Used(): int {
      START_AND_END
      + (if tcc then MsrcUs() + TCC else 0)
      + (if dss then 2 * (MsrcUs() + DSS) else if msrc then MsrcUs() + MSRC else 0)
      + (if preRange then PreUs() + PRE_RANGE else 0)
    }

    function Budget(): int { Used() + if finalRange then FinalUs() + FINAL_RANGE else 0 }

    /** The timeout a request leaves for the final range, and how it is stored. */
    function Stored(request: uint32): uint32
      requires Valid() && Used() + FINAL_RANGE <= request
    {
      Wrap(ToMclks(request - Used() - FINAL_RANGE, finalPclks) + if preRange then Decode(preTimeout) else 0)
    }

    predicate Refused(request: uint32) { finalRange && Used() + FINAL_RANGE > request }

    function AfterSet(request: uint32): Registers
      requires Valid()
    {
      if finalRange && !Refused(request) then this.(finalTimeout := EncodedWord(Stored(request))) else this
    }
  }

  function EncodedWord(t: uint32): uint16 {
    if t > 0 then EncodedParts(t); Encode(t) else 0
  }

  /** The sums stay below 2^32, so the set and the get agree on what is used. */
  lemma UsedFits(r: Registers)
    ensures 0 <= r.Used() && r.Used() + FINAL_RANGE < 0x1000_0000
  {
    MicrosecondsFit(r.msrcTimeout + 1, r.prePclks);
    MicrosecondsFit(Decode(r.preTimeout), r.prePclks);
  }

  lemma MicrosecondsFit(mclks: uint16, pclks: byte)
    ensures ToMicroseconds(mclks, pclks) <= 4294967
  {
    hide MacroPeriod;
  }

  /** Rounding to macro clocks is off by at most half a period. */
  lemma ClockRounding(us: uint32, pclks: byte)
    requires pclks > 0 && 1000 * us + MacroPeriod(pclks) / 2 + 500 < WORD
    ensures var p, m := MacroPeriod(pclks), ToMclks(us, pclks);
            p > 3000 && m * p <= 1000 * us + p / 2 && 1000 * us - p / 2 <= m * p
  {
    hide MacroPeriod;
    var p := MacroPeriod(pclks);
    PeriodIsPositive(pclks);
    var x := us * 1000 + p / 2;
    assert ToMclks(us, pclks) == x / p;
    DivisionBounds(x, p);
  }

  lemma PeriodIsPositive(pclks: byte)
    requires pclks > 0
    ensures MacroPeriod(pclks) > 3000
  {
  }

  lemma DivisionBounds(x: nat, p: int)
    requires p > 0
    ensures x / p * p <= x < x / p * p + p
  {
  }

  lemma ThousandthRounding(ns: nat)
    requires ns + 500 < WORD
    ensures var us := Wrap(Wrap(ns) + 500) / 1000; 1000 * us <= ns + 500 && ns < 1000 * us + 500
  {
  }

  /** Rounding to microseconds is off by at most half a microsecond. */
  lemma MicrosecondRounding(mclks: uint16, pclks: byte)
    requires mclks * MacroPeriod(pclks) + 500 < WORD
    ensures var us, ns := ToMicroseconds(mclks, pclks), mclks * MacroPeriod(pclks);
            1000 * us <= ns + 500 && ns < 1000 * us + 500
  {
    hide MacroPeriod, Wrap;
    var ns := mclks * MacroPeriod(pclks);
    assert ns >= 0;
    ThousandthRounding(ns);
  }

  /** The pre-range timeout is among the exactly storable ones, so the final-range
      timeout stored on top of it never reads back below it. */
  lemma NoUnderflow(preTimeout: uint16, t: uint32)
    requires Decode(preTimeout) <= t <= 0x1_0000
    ensures t > 0 && Decode(preTimeout) <= Decode(EncodedWord(t)) <= t
  {
    hide Decode, Leading;
    DecodedIsExact(preTimeout);
    TimeoutRoundTrip(t);
    EncodedParts(t);
    LeadingIsMonotone(Decode(preTimeout) - 1, t - 1);
  }

  /** The budget read back after a successful request exceeds it by at most half a
      macro period and half a microsecond, and falls short by no more than that and
      what the encoding loses, which is at most one part in 128; as long as the
      request fits the 32-bit conversion and the 16-bit timeout. */
  lemma BudgetReadsBack(r: Registers, request: uint32)
    requires r.Valid() && r.finalRange && !r.Refused(request)
    requires 1000 * (request - r.Used() - FINAL_RANGE) + MacroPeriod(r.finalPclks) / 2 + 500 < WORD
    requires 1 <= r.Stored(request) <= 0x1_0000
    ensures var p, t, n := MacroPeriod(r.finalPclks), r.Stored(request), r.AfterSet(request);
            var loss := t - Decode(n.finalTimeout);
            && 0 <= 128 * loss <= t - 1
            && 1000 * (n.Budget() - request) <= p / 2 + 500
            && 1000 * (request - n.Budget()) <= p / 2 + 500 + loss * p
  {
    hide Decode, MacroPeriod, ToMclks, ToMicroseconds, Registers.Used, Registers.Budget, Registers.Stored, Registers.AfterSet;
    UsedFits(r);
    var us, p := request - r.Used() - FINAL_RANGE, MacroPeriod(r.finalPclks);
    var m, n := ToMclks(us, r.finalPclks), r.AfterSet(request);
    StoredPlainly(r, request);
    ReadPlainly(r, request);
    ClockRounding(us, r.finalPclks);
    var loss := r.Stored(request) - Decode(n.finalTimeout);
    Distribute(m, loss, p);
    MicrosecondRounding(n.FinalMclks(), r.finalPclks);
  }

  lemma ClocksAreFew(us: int, m: int, p: int)
    requires p > 3000 && m >= 0 && m * p <= 1000 * us + p / 2 && 1000 * us + p / 2 + 500 < WORD
    ensures m < 0x1000_0000
  {
    assert 3000 * m <= m * p;
  }

  /** What was stored, when nothing wraps. */
  lemma StoredPlainly(r: Registers, request: uint32)
    requires r.Valid() && r.finalRange && !r.Refused(request)
    requires 1000 * (request - r.Used() - FINAL_RANGE) + MacroPeriod(r.finalPclks) / 2 + 500 < WORD
    ensures r.Stored(request) ==
            ToMclks(request - r.Used() - FINAL_RANGE, r.finalPclks) + if r.preRange then Decode(r.preTimeout) else 0
  {
    hide Decode, MacroPeriod, ToMclks, ToMicroseconds;
    UsedFits(r);
    var us := request - r.Used() - FINAL_RANGE;
    ClockRounding(us, r.finalPclks);
    ClocksAreFew(us, ToMclks(us, r.finalPclks), MacroPeriod(r.finalPclks));
  }

  /** What is read back, when nothing wraps. */
  lemma ReadPlainly(r: Registers, request: uint32)
    requires r.Valid() && r.finalRange && !r.Refused(request)
    requires 1 <= r.Stored(request) <= 0x1_0000 && (r.preRange ==> Decode(r.preTimeout) <= r.Stored(request))
    ensures var t, n := r.Stored(request), r.AfterSet(request); var loss := t - Decode(n.finalTimeout);
            && 0 <= 128 * loss <= t - 1
            && n.FinalMclks() == t - loss - (if r.preRange then Decode(r.preTimeout) else 0)
            && n.Budget() == r.Used() + FINAL_RANGE + ToMicroseconds(n.FinalMclks(), r.finalPclks)
  {
    hide Decode, MacroPeriod, ToMclks, ToMicroseconds, Registers.Stored;
    UsedFits(r);
    var t := r.Stored(request);
    EncodedParts(t);
    TimeoutRoundTrip(t);
    if r.preRange {
      NoUnderflow(r.preTimeout, t);
    }
  }

  lemma Distribute(m: int, loss: int, p: int)
    requires 0 <= loss && p > 0
    ensures (m - loss) * p == m * p - loss * p <= m * p
  {
  }

  /** The macro period is 2304 pulse periods of 1.655 ns each, to the nearest one. */
  lemma PeriodIsNearest(pclks: byte)
    ensures -500 <= 1000 * MacroPeriod(pclks) - 2304 * 1655 * (pclks as int) <= 500
  {
  }

  /** A step that runs `times` times in one measurement, in nanoseconds. */
  function StepTime(times: nat, clocks: uint16, pclks: byte, overheadUs: nat): int {
    times * (clocks * MacroPeriod(pclks) + 1000 * overheadUs)
  }

  /** The same in the budget's microseconds. */
  function StepUs(times: nat, clocks: uint16, pclks: byte, overheadUs: nat): int {
    times * (ToMicroseconds(clocks, pclks) + overheadUs)
  }

  predicate Plain(clocks: uint16, pclks: byte) { clocks * MacroPeriod(pclks) + 500 < WORD }

  lemma StepRounding(times: nat, clocks: uint16, pclks: byte, overheadUs: nat)
    requires Plain(clocks, pclks)
    ensures -500 * times <= 1000 * StepUs(times, clocks, pclks, overheadUs) - StepTime(times, clocks, pclks, overheadUs) <= 500 * times
  {
    hide MacroPeriod, ToMicroseconds;
    MicrosecondRounding(clocks, pclks);
    var us, ns := ToMicroseconds(clocks, pclks), clocks * MacroPeriod(pclks);
    assert 1000 * (times * (us + overheadUs)) - times * (ns + 1000 * overheadUs) == times * (1000 * us - ns);
    assert -500 * times <= times * (1000 * us - ns) <= 500 * times by { Between(times, 1000 * us - ns); }
  }

  lemma Between(n: nat, x: int)
    requires -500 <= x <= 500
    ensures -500 * n <= n * x <= 500 * n
  {
  }

  /** The final range's own clocks: the stored ones less the pre-range ones, unless
      these are more. */
  lemma FinalClocks(r: Registers)
    ensures var pre := if r.preRange then Decode(r.preTimeout) else 0;
            r.FinalMclks() == Decode(r.finalTimeout) - pre + if pre <= Decode(r.finalTimeout) then 0 else 0x1_0000
  {
    hide Decode;
  }

  /** The budget is the time of all steps that run, DSS twice and MSRC only without it,
      and the overhead of the whole, to half a microsecond for each run of a step. */
  lemma BudgetIsSumOfSteps(r: Registers)
    requires Plain(r.msrcTimeout + 1, r.prePclks) && Plain(Decode(r.preTimeout), r.prePclks) && Plain(r.FinalMclks(), r.finalPclks)
    ensures var tcc, dss, pre, final :=
              if r.tcc then 1 else 0, if r.dss then 2 else 0, if r.preRange then 1 else 0, if r.finalRange then 1 else 0;
            var msrc := if r.msrc && !r.dss then 1 else 0;
            var total := StepTime(tcc, r.msrcTimeout + 1, r.prePclks, 590) + StepTime(dss, r.msrcTimeout + 1, r.prePclks, 690) +
                         StepTime(msrc, r.msrcTimeout + 1, r.prePclks, 660) +
                         StepTime(pre, Decode(r.preTimeout), r.prePclks, 660) + StepTime(final, r.FinalMclks(), r.finalPclks, 550);
            var runs := tcc + dss + msrc + pre + final;
            -500 * runs <= 1000 * r.Budget() - (1000 * (1910 + 960) + total) <= 500 * runs
  {
    hide Decode, MacroPeriod, ToMicroseconds, StepTime, StepUs, Registers.FinalMclks, Registers.Budget;
    BudgetInSteps(r);
    StepRounding(if r.tcc then 1 else 0, r.msrcTimeout + 1, r.prePclks, 590);
    StepRounding(if r.dss then 2 else 0, r.msrcTimeout + 1, r.prePclks, 690);
    StepRounding(if r.msrc && !r.dss then 1 else 0, r.msrcTimeout + 1, r.prePclks, 660);
    StepRounding(if r.preRange then 1 else 0, Decode(r.preTimeout), r.prePclks, 660);
    StepRounding(if r.finalRange then 1 else 0, r.FinalMclks(), r.finalPclks, 550);
  }

  lemma BudgetInSteps(r: Registers)
    ensures r.Budget() ==
            1910 + 960 + StepUs(if r.tcc then 1 else 0, r.msrcTimeout + 1, r.prePclks, 590) +
            StepUs(if r.dss then 2 else 0, r.msrcTimeout + 1, r.prePclks, 690) +
            StepUs(if r.msrc && !r.dss then 1 else 0, r.msrcTimeout + 1, r.prePclks, 660) +
            StepUs(if r.preRange then 1 else 0, Decode(r.preTimeout), r.prePclks, 660) +
            StepUs(if r.finalRange then 1 else 0, r.FinalMclks(), r.finalPclks, 550)
  {
    hide Decode, ToMicroseconds, Registers.FinalMclks;
  }

  /** A request is refused exactly when the final range is enabled and the rest of the
      budget, its own timeout left out, is more than was asked for; a refusal and a
      disabled final range leave the registers alone. */
  lemma RefusedExactlyWhen(r: Registers, request: uint32)
    requires r.Valid()
    ensures r.Refused(request) <==> r.finalRange && r.Budget() - r.FinalUs() > request
    ensures r.Refused(request) || !r.finalRange ==> r.AfterSet(request) == r
    ensures r.AfterSet(request) == r.(finalTimeout := r.AfterSet(request).finalTimeout)
  {
    hide Decode, ToMicroseconds, ToMclks, EncodedWord;
  }

  /** The two calls on the sensor. */
  class Sensor {
    var regs: Registers
    var budget: uint32

    constructor (r: Registers)
      ensures regs == r
    {
      regs, budget := r, 0;
    }

    method SetMeasurementTimingBudget(request: uint32) returns (ok: bool)
      requires regs.Valid()
      modifies this
      ensures ok == !old(regs).Refused(request) && regs == old(regs).AfterSet(request)
      ensures budget == if ok && regs.finalRange then request else old(budget)
    {
      hide Decode, ToMclks, ToMicroseconds, EncodedWord;
      UsedFits(regs);
      var msrcUs, preMclks := ToMicroseconds(regs.msrcTimeout + 1, regs.prePclks), Decode(regs.preTimeout);
      var used := START_AND_END;
      if regs.tcc {
        used := used + (msrcUs + TCC);
      }
      if regs.dss {
        used := used + 2 * (msrcUs + DSS);
      } else if regs.msrc {
        used := used + (msrcUs + MSRC);
      }
      if regs.preRange {
        used := used + (ToMicroseconds(preMclks, regs.prePclks) + PRE_RANGE);
      }
      if regs.finalRange {
        used := used + FINAL_RANGE;
        if used > request {
          return false;
        }
        var mclks := ToMclks(request - used, regs.finalPclks);
        if regs.preRange {
          mclks := Wrap(mclks + preMclks);
        }
        var word := EncodeTimeout(mclks);
        assert word == EncodedWord(mclks) by { EncodedIsEncode(mclks); }
        regs := regs.(finalTimeout := word);
        budget := request;
      }
      return true;
    }

    method GetMeasurementTimingBudget() returns (us: uint32)
      requires regs.Valid()
      modifies this`budget
      ensures us == budget == regs.Budget()
    {
      hide Decode, ToMicroseconds;
      UsedFits(regs);
      MicrosecondsFit(regs.FinalMclks(), regs.finalPclks);
      var msrcUs, preMclks := ToMicroseconds(regs.msrcTimeout + 1, regs.prePclks), Decode(regs.preTimeout);
      var finalMclks: uint16 := Decode(regs.finalTimeout);
      if regs.preRange {
        finalMclks := (finalMclks - preMclks) % 0x1_0000;
      }
      us := START_AND_END;
      if regs.tcc {
        us := us + (msrcUs + TCC);
      }
      if regs.dss {
        us := us + 2 * (msrcUs + DSS);
      } else if regs.msrc {
        us := us + (msrcUs + MSRC);
      }
      if regs.preRange {
        us := us + (ToMicroseconds(preMclks, regs.prePclks) + PRE_RANGE);
      }
      if regs.finalRange {
        us := us + (ToMicroseconds(finalMclks, regs.finalPclks) + FINAL_RANGE);
      }
      budget := us;
    }
  }

  lemma EncodedIsEncode(t: uint32)
    ensures EncodedWord(t) == Encode(t)
  {
    hide Squeezed;
  }
}
