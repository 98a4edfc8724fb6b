/** Calibrating the touch pad that wakes the scale display (touch_wake.c): the mean
    of sorted samples without their extremes, and the threshold in percent. */
module TouchCalibration {
  import opened Clock

  const MIN_PERCENT: int := 1
  const MAX_PERCENT: int := 50

  // -------------------------------------------------------------- the trimmed mean

  predicate Sorted(s: seq<uint32>) { forall i, j :: 0 <= i < j < |s| ==> s[i] <= s[j] }

  function Sum(s: seq<uint32>): nat { if s == [] then 0 else Sum(s[..|s| - 1]) + s[|s| - 1] }

  lemma SwapKeeps(s: seq<uint32>, i: nat, j: nat)
    requires i < j < |s|
    ensures multiset(s[i := s[j]][j := s[i]]) == multiset(s)
  {
    var u := s[i := s[j]];
    assert multiset(u) == multiset(s) - multiset{s[i]} + multiset{s[j]};
    assert multiset(u[j := s[i]]) == multiset(u) - multiset{s[j]} + multiset{s[i]};
  }

  /** With `value` in the hole at `j`, these are the values of `was`. */
  predicate Permutes(s: seq<uint32>, j: nat, value: uint32, was: seq<uint32>) {
    j < |s| && multiset(s[j := value]) == multiset(was)
  }

  /** Moving the hole one place down: with the value in the hole it is a swap. */
  lemma HoleMoves(s: seq<uint32>, j: nat, value: uint32, was: seq<uint32>)
    requires 0 < j && Permutes(s, j, value, was)
    ensures Permutes(s[j := s[j - 1]], j - 1, value, was)
  {
    var t := s[j := value];
    SwapKeeps(t, j - 1, j);
    assert t[j - 1 := t[j]][j := t[j - 1]] == s[j := s[j - 1]][j - 1 := value];
  }

  lemma HoleThere(s: seq<uint32>, j: nat)
    requires j < |s|
    ensures Permutes(s, j, s[j], s)
  {
    assert s[j := s[j]] == s;
  }

  lemma HoleClosed(s: seq<uint32>, j: nat, value: uint32, was: seq<uint32>)
    requires Permutes(s, j, value, was)
    ensures multiset(s[j := value]) == multiset(was)
  {
  }

  /** The first `i + 1` values are sorted but for the hole at `j`, and those after
      the hole are greater than `value`. */
  predicate Holed(s: seq<uint32>, i: nat, j: nat, value: uint32)
    requires j <= i < |s|
  {
    && (forall a, b :: 0 <= a < b <= i && a != j && b != j ==> s[a] <= s[b])
    && (forall b :: j < b <= i ==> value < s[b])
  }

  lemma HoleSinks(s: seq<uint32>, i: nat, j: nat, value: uint32)
    requires 0 < j <= i < |s| && Holed(s, i, j, value) && s[j - 1] > value
    ensures Holed(s[j := s[j - 1]], i, j - 1, value)
  {
  }

  lemma HoleFilled(s: seq<uint32>, i: nat, j: nat, value: uint32)
    requires j <= i < |s| && Holed(s, i, j, value) && (j > 0 ==> s[j - 1] <= value)
    ensures Sorted(s[j := value][..i + 1])
  {
  }

  /** One round of the insertion sort: values[i] moves down to its place. */
  method InsertLast(values: array<uint32>, i: nat)
    requires 0 < i < values.Length && Sorted(values[..i])
    modifies values
    ensures Sorted(values[..i + 1]) && multiset(values[..]) == multiset(old(values[..]))
  {
    hide Sorted, Holed, Permutes;
    var value, j := values[i], i;
    ghost var was := values[..];
    assert was[..i] == values[..i];
    StartHole(was, i);
    HoleThere(was, i);
    while j > 0 && values[j - 1] > value
      invariant 0 <= j <= i
      invariant Permutes(values[..], j, value, was) && Holed(values[..], i, j, value)
    {
      ghost var s := values[..];
      HoleMoves(s, j, value, was);
      HoleSinks(s, i, j, value);
      values[j] := values[j - 1];
      assert values[..] == s[j := s[j - 1]];
      j := j - 1;
    }
    ghost var s := values[..];
    HoleFilled(s, i, j, value);
    HoleClosed(s, j, value, was);
    values[j] := value;
    assert values[..] == s[j := value] && values[..i + 1] == s[j := value][..i + 1];
  }

  lemma StartHole(s: seq<uint32>, i: nat)
    requires i < |s|
    ensures Sorted(s[..i]) ==> Holed(s, i, i, s[i])
  {
    if Sorted(s[..i]) {
      forall a, b | 0 <= a < b < i
        ensures s[a] <= s[b]
      {
        assert s[..i][a] <= s[..i][b];
      }
    }
  }

  /** Insertion sort, in place. */
  method SortInPlace(values: array<uint32>)
    requires values.Length > 0
    modifies values
    ensures Sorted(values[..]) && multiset(values[..]) == multiset(old(values[..]))
  {
    hide Sorted;
    assert Sorted(values[..1]) by { OneIsSorted(values[..1]); }
    for i := 1 to values.Length
      invariant Sorted(values[..i]) && multiset(values[..]) == multiset(old(values[..]))
    {
      InsertLast(values, i);
    }
    assert values[..values.Length] == values[..];
  }

  lemma OneIsSorted(s: seq<uint32>)
    requires |s| == 1
    ensures Sorted(s)
  {
  }

  /** `trimmed_mean`: the array is sorted in place; the mean leaves out an eighth of
      the samples at either end. */
  method TrimmedMean(values: array<uint32>) returns (mean: uint32, minimum: uint32, maximum: uint32)
    requires values.Length > 0
    modifies values
    ensures Sorted(values[..]) && multiset(values[..]) == multiset(old(values[..]))
    ensures minimum == values[0] && maximum == values[values.Length - 1]
    ensures var t := values.Length / 8;
            mean == Sum(values[t..values.Length - t]) / (values.Length - 2 * t)
  {
    SortInPlace(values);
    minimum, maximum := values[0], values[values.Length - 1];
    var count, trim := values.Length, if values.Length >= 8 then values.Length / 8 else 0;
    var total := 0;
    for i := trim to count - trim
      invariant total == Sum(values[trim..i])
    {
      assert values[trim..i + 1][..i - trim] == values[trim..i];
      total := total + values[i];
    }
    MeanIsInside(values[..], trim);
    assert values[..][trim..count - trim] == values[trim..count - trim];
    mean := total / (count - trim * 2);
  }

  lemma {:induction false} SumBounds(s: seq<uint32>, lo: int, hi: int)
    requires forall i :: 0 <= i < |s| ==> lo <= s[i] <= hi
    ensures lo * |s| <= Sum(s) <= hi * |s|
    decreases |s|
  {
    if s != [] {
      SumBounds(s[..|s| - 1], lo, hi);
    }
  }

  lemma Scaled(a: int, b: int, n: int)
    requires a <= b && n >= 0
    ensures a * n <= b * n
  {
  }

  lemma QuotientInside(total: nat, n: nat, lo: int, hi: int)
    requires n > 0 && lo * n <= total <= hi * n
    ensures lo <= total / n <= hi
  {
    var q := total / n;
    assert total == n * q + total % n;
    Scaled(if lo > q then q + 1 else lo, lo, n);
    Scaled(hi, if hi < q then q - 1 else hi, n);
  }

  /** The mean lies between the samples at the two cuts, so between the smallest and
      the greatest. */
  lemma MeanIsInside(s: seq<uint32>, trim: nat)
    requires Sorted(s) && |s| > 0 && trim == |s| / 8
    ensures 2 * trim < |s|
    ensures s[0] <= s[trim] <= Sum(s[trim..|s| - trim]) / (|s| - 2 * trim) <= s[|s| - 1 - trim] <= s[|s| - 1]
  {
    var middle := s[trim..|s| - trim];
    SumBounds(middle, s[trim], s[|s| - 1 - trim]);
    QuotientInside(Sum(middle), |middle|, s[trim], s[|s| - 1 - trim]);
  }

  function Outliers(s: seq<uint32>, lo: int, hi: int): nat {
    if s == [] then 0
    else Outliers(s[..|s| - 1], lo, hi) + (if lo <= s[|s| - 1] <= hi then 0 else 1)
  }

  lemma {:induction false} OutliersSplit(a: seq<uint32>, b: seq<uint32>, lo: int, hi: int)
    ensures Outliers(a + b, lo, hi) == Outliers(a, lo, hi) + Outliers(b, lo, hi)
    decreases |b|
  {
    if b == [] {
      assert a + b == a;
    } else {
      OutliersSplit(a, b[..|b| - 1], lo, hi);
      assert (a + b)[..|a + b| - 1] == a + b[..|b| - 1];
    }
  }

  lemma OneTakenOut(b: seq<uint32>, k: nat, lo: int, hi: int)
    requires k < |b|
    ensures var rest := b[..k] + b[k + 1..];
            && multiset(rest) == multiset(b) - multiset{b[k]} && |rest| == |b| - 1
            && Outliers(b, lo, hi) == Outliers(rest, lo, hi) + Outliers([b[k]], lo, hi)
  {
    assert b == b[..k] + [b[k]] + b[k + 1..];
    OutliersSplit(b[..k], b[k + 1..], lo, hi);
    OutliersSplit(b[..k], [b[k]], lo, hi);
    OutliersSplit(b[..k] + [b[k]], b[k + 1..], lo, hi);
  }

  lemma {:induction false} OutliersPermuted(a: seq<uint32>, b: seq<uint32>, lo: int, hi: int)
    requires multiset(a) == multiset(b)
    ensures Outliers(a, lo, hi) == Outliers(b, lo, hi)
    decreases |a|
  {
    hide Outliers;
    assert |multiset(a)| == |a| && |multiset(b)| == |b|;
    if a == [] {
      assert b == [];
    } else {
      var x := a[0];
      assert x in multiset(a);
      var k :| 0 <= k < |b| && b[k] == x;
      OneTakenOut(a, 0, lo, hi);
      OneTakenOut(b, k, lo, hi);
      OutliersPermuted(a[..0] + a[1..], b[..k] + b[k + 1..], lo, hi);
    }
  }

  lemma {:induction false} AllOutside(s: seq<uint32>, lo: int, hi: int)
    requires forall i :: 0 <= i < |s| ==> !(lo <= s[i] <= hi)
    ensures Outliers(s, lo, hi) == |s|
    decreases |s|
  {
    if s != [] {
      AllOutside(s[..|s| - 1], lo, hi);
    }
  }

  lemma {:induction false} LowTail(s: seq<uint32>, n: nat, lo: int, hi: int)
    requires Sorted(s) && n < |s| && s[n] < lo
    ensures Outliers(s, lo, hi) > n
  {
    AllOutside(s[..n + 1], lo, hi);
    OutliersSplit(s[..n + 1], s[n + 1..], lo, hi);
    assert s == s[..n + 1] + s[n + 1..];
  }

  lemma {:induction false} HighTail(s: seq<uint32>, n: nat, lo: int, hi: int)
    requires Sorted(s) && n < |s| && s[|s| - 1 - n] > hi
    ensures Outliers(s, lo, hi) > n
  {
    var k := |s| - 1 - n;
    AllOutside(s[k..], lo, hi);
    OutliersSplit(s[..k], s[k..], lo, hi);
    assert s == s[..k] + s[k..];
  }

  /** As many wild samples as an eighth cannot move the mean out of the range of the
      others, whichever they are and however far off. */
  lemma {:induction false} MeanIgnoresOutliers(samples: seq<uint32>, s: seq<uint32>, lo: int, hi: int)
    requires |samples| > 0 && Sorted(s) && multiset(s) == multiset(samples)
    requires Outliers(samples, lo, hi) <= |samples| / 8
    ensures |s| == |samples| && 2 * (|s| / 8) < |s|
    ensures lo <= Sum(s[|s| / 8..|s| - |s| / 8]) / (|s| - 2 * (|s| / 8)) <= hi
  {
    hide Sorted, Outliers, Sum;
    assert |multiset(s)| == |s| && |multiset(samples)| == |samples|;
    var t, n := |s| / 8, |s|;
    OutliersPermuted(s, samples, lo, hi);
    MeanIsInside(s, t);
    if s[t] < lo {
      LowTail(s, t, lo, hi);
    } else if s[n - 1 - t] > hi {
      HighTail(s, t, lo, hi);
    }
  }

  // ------------------------------------------------------------------ the threshold

  datatype Threshold = Weak | Strong(percent: int, wake: uint32)

  function Percent(baseline: uint32, touched: uint32): int
    requires touched < baseline
  {
    var target := Wrap((baseline - touched) * 2) / 5;
    (target * 100 + baseline - 1) / baseline
  }

  /** The signal check and the threshold, from the two means and the noise span. */
  method Choose(baseline: uint32, touched: uint32, noiseSpan: uint32) returns (t: Threshold)
    ensures t.Weak? <==> touched >= baseline || baseline - touched < baseline / 100 || baseline - touched < Wrap(noiseSpan * 5)
    ensures t.Strong? ==> 1 <= t.percent <= 40 && t.wake == baseline * (100 - t.percent) / 100
    ensures t.Strong? ==> t.percent == if Percent(baseline, touched) < 1 then 1 else Percent(baseline, touched)
  {
    if touched >= baseline {
      return Weak;
    }
    var signal, minimum, guard := baseline - touched, baseline / 100, Wrap(noiseSpan * 5);
    if minimum < guard {
      minimum := guard;
    }
    if signal < minimum {
      return Weak;
    }
    var target := Wrap(signal * 2) / 5;
    var percent := (target * 100 + baseline - 1) / baseline;
    PercentBounds(baseline, touched);
    if percent < MIN_PERCENT {
      percent := MIN_PERCENT;
    } else if percent > MAX_PERCENT {
      percent := MAX_PERCENT;
    }
    WakeBelowBaseline(baseline, percent);
    return Strong(percent, baseline * (100 - percent) / 100);
  }

  /** Two fifths of a drop that cannot exceed the baseline: never above 40, so the
      upper clamp never acts. */
  lemma PercentBounds(baseline: uint32, touched: uint32)
    requires touched < baseline
    ensures 0 <= Percent(baseline, touched) <= 40
    ensures var p, target := Percent(baseline, touched), Wrap((baseline - touched) * 2) / 5;
            (p - 1) * baseline < 100 * target && 5 * target <= 2 * (baseline - touched)
  {
    hide Wrap;
    TargetFits(baseline - touched);
    CeilingBounds(Wrap((baseline - touched) * 2) / 5 * 100, baseline, 40);
  }

  lemma TargetFits(signal: uint32)
    ensures var target := Wrap(signal * 2) / 5; 0 <= 5 * target <= 2 * signal
  {
  }

  lemma CeilingBounds(x: nat, n: int, most: nat)
    requires n > 0 && x <= most * n
    ensures var c := (x + n - 1) / n; x <= c * n < x + n && 0 <= c <= most
  {
    var c := (x + n - 1) / n;
    assert x + n - 1 == n * c + (x + n - 1) % n;
    Scaled(most, if most < c then c - 1 else most, n);
    Scaled(if c < 0 then c + 1 else 0, 0, n);
  }

  lemma WakeBelowBaseline(baseline: uint32, percent: int)
    requires baseline > 0 && 1 <= percent <= 100
    ensures 0 <= baseline * (100 - percent) / 100 < baseline
  {
    Scaled(100 - percent, 99, baseline);
    Scaled(0, 100 - percent, baseline);
    HundredthBelow(baseline * (100 - percent), baseline);
  }

  lemma HundredthBelow(x: int, n: int)
    requires 0 <= x <= 99 * n && n > 0
    ensures 0 <= x / 100 < n
  {
  }

  /** The wake threshold is strictly below the baseline and not below the touched
      mean, except by one, and that if and only if the percentage is 1, the signal
      is the least that is accepted, and a hundredth of the baseline is no whole
      number. */
  lemma ThresholdSeparates(baseline: uint32, touched: uint32, percent: int)
    requires touched < baseline && baseline - touched >= baseline / 100
    requires percent == if Percent(baseline, touched) < 1 then 1 else Percent(baseline, touched)
    ensures var wake := baseline * (100 - percent) / 100;
            && touched - 1 <= wake < baseline
            && (wake < touched <==> percent == 1 && baseline - touched == baseline / 100 && baseline % 100 != 0)
  {
    hide Wrap, Percent;
    PercentBounds(baseline, touched);
    WakeBelowBaseline(baseline, percent);
    CutBelowSignal(baseline, touched, percent);
    Distributes(baseline, percent);
    WakeAndSignal(baseline, baseline - touched, baseline * percent, percent == 1);
  }

  lemma Distributes(n: int, percent: int)
    ensures n * (100 - percent) == 100 * n - n * percent
  {
  }

  lemma CutBelowSignal(baseline: uint32, touched: uint32, percent: int)
    requires touched < baseline && percent == if Percent(baseline, touched) < 1 then 1 else Percent(baseline, touched)
    ensures if percent == 1 then baseline * percent == baseline else 0 <= baseline * percent < 80 * (baseline - touched)
  {
    hide Wrap, Percent;
    PercentBounds(baseline, touched);
    if percent >= 2 {
      HalfAtMost(baseline, percent, Wrap((baseline - touched) * 2) / 5);
    }
  }

  lemma WakeAndSignal(baseline: nat, signal: nat, cut: int, least: bool)
    requires baseline / 100 <= signal <= baseline && signal > 0
    requires if least then cut == baseline else 0 <= cut < 80 * signal
    ensures var wake := (100 * baseline - cut) / 100;
            baseline - signal - 1 <= wake &&
            (wake < baseline - signal <==> least && signal == baseline / 100 && baseline % 100 != 0)
  {
  }

  /** From two percent on, rounding up at most doubles the target. */
  lemma HalfAtMost(baseline: uint32, percent: int, target: int)
    requires percent >= 2 && (percent - 1) * baseline < 100 * target
    ensures baseline * percent < 200 * target
  {
    assert baseline * percent <= 2 * ((percent - 1) * baseline);
  }

  /** The threshold asks for two fifths of the signal, rounded up to a whole percent of
      the baseline: it is not below that, less the rounding of the fifth, if and only
      if doubling the signal does not wrap, and above it by less than one percent. */
  lemma CutIsTwoFifths(baseline: uint32, touched: uint32, percent: int)
    requires touched < baseline
    requires percent == if Percent(baseline, touched) < 1 then 1 else Percent(baseline, touched)
    ensures var signal := baseline - touched;
            && (5 * (percent * baseline) >= 200 * signal - 400 <==> 2 * signal < WORD)
            && (percent > 1 ==> 5 * (percent * baseline) < 200 * signal + 5 * baseline)
  {
    var signal := baseline - touched;
    var target := Wrap(signal * 2) / 5;
    hide Wrap;
    WrappedFifths(signal);
    CeilingBounds(target * 100, baseline, 40) by { TargetFits(signal); }
    var p := Percent(baseline, touched);
    assert p * baseline - baseline < 100 * target <= p * baseline;
    if percent == p {
      assert percent * baseline == p * baseline;
    } else {
      assert percent * baseline == baseline && p == 0;
      assert p * baseline == 0;
    }
  }

  lemma WrappedFifths(signal: uint32)
    ensures var target := Wrap(signal * 2) / 5;
            if 2 * signal < WORD then 2 * signal - 4 <= 5 * target <= 2 * signal
            else 5 * target <= 2 * signal - WORD
  {
  }
}
