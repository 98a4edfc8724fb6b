/** The distance filter (distance_filter.h): the median of the last three readings,
    smoothed exponentially, over real numbers. */
module DistanceFilter {
  import opened Clock
  import opened HistoryRecord

  datatype Reading = Reading(raw: int, valid: bool, at: uint32, staleMs: uint32)

  function Lesser(a: int, b: int): int { if b < a then b else a }
  function Greater(a: int, b: int): int { if b > a then b else a }

  function Middle(a: int, b: int, c: int): int { Greater(Lesser(a, b), Lesser(Greater(a, b), c)) }

  // ------------------------------------------------------- the filter as a function

  /** The median of the last readings, up to three. */
  function Median(rs: seq<int>): real
    requires rs != []
  {
    var n := |rs|;
    if n == 1 then rs[0] as real
    else if n == 2 then (rs[0] + rs[1]) as real * 0.5
    else Middle(rs[n - 3], rs[n - 2], rs[n - 1]) as real
  }

  /** The output after a series of readings without a reset. */
  function Output(rs: seq<int>): real
    requires rs != []
  {
    if |rs| == 1 then rs[0] as real
    else
      var before := Output(rs[..|rs| - 1]);
      before + 0.4 * (Median(rs) - before)
  }

  /** The readings since the last reset: by an invalid one, or by a gap. */
  function Since(ins: seq<Reading>): seq<int> {
    if ins == [] then []
    else
      var init, r := ins[..|ins| - 1], ins[|ins| - 1];
      if !r.valid then []
      else if Since(init) != [] && Elapsed(r.at, init[|init| - 1].at) > r.staleMs then [r.raw]
      else Since(init) + [r.raw]
  }

  // ------------------------------------------------------------------- the object

  class Filter {
    const window: array<int>
    var count: nat
    var next: nat
    var value: real
    var lastAt: uint32

    /** The fields stand for these readings. */
    ghost predicate Holds(rs: seq<int>)
      reads this, window
    {
      && window.Length == 3
      && count == (if |rs| < 3 then |rs| else 3) && next == |rs| % 3
      && (forall i :: |rs| - count <= i < |rs| ==> window[i % 3] == rs[i])
      && value == (if rs == [] then 0.0 else Output(rs))
    }

    constructor ()
      ensures Holds([]) && fresh(window)
    {
      window := new int[3](_ => 0);
      count, next, value, lastAt := 0, 0, 0.0, 0;
    }

    method Reset()
      requires window.Length == 3
      modifies this`count, this`next, this`value
      ensures Holds([])
    {
      count, next, value := 0, 0, 0.0;
    }

    /** The median of what is in the window. */
    method WindowMedian(ghost rs: seq<int>) returns (median: real)
      requires window.Length == 3 && rs != [] && count == (if |rs| < 3 then |rs| else 3)
      requires forall i :: |rs| - count <= i < |rs| ==> window[i % 3] == rs[i]
      ensures median == Median(rs)
    {
      if count == 1 {
        assert window[0 % 3] == rs[0];
        median := window[0] as real;
      } else if count == 2 {
        assert window[0 % 3] == rs[0] && window[1 % 3] == rs[1];
        median := (window[0] + window[1]) as real * 0.5;
      } else {
        ghost var n := |rs|;
        assert window[(n - 3) % 3] == rs[n - 3] && window[(n - 2) % 3] == rs[n - 2] && window[(n - 1) % 3] == rs[n - 1];
        AnyOrder(window[0], window[1], window[2]);
        median := Middle(window[0], window[1], window[2]) as real;
      }
    }

    /** `ins` are the readings so far; the output is 0 for an invalid one. */
    method Update(r: Reading, ghost ins: seq<Reading>) returns (out: real)
      requires Holds(Since(ins)) && (Since(ins) != [] ==> lastAt == ins[|ins| - 1].at)
      modifies this`count, this`next, this`value, this`lastAt, window
      ensures var rs := Since(ins + [r]);
              && Holds(rs) && (rs != [] ==> lastAt == r.at)
              && out == if rs == [] then 0.0 else Output(rs)
    {
      ghost var rs := Since(ins + [r]);
      assert (ins + [r])[..|ins|] == ins;
      if !r.valid {
        Reset();
        return 0.0;
      }
      if count > 0 && Elapsed(r.at, lastAt) > r.staleMs {
        Reset();
      }
      ghost var before := if count == 0 then [] else Since(ins);
      assert Holds(before) && rs == before + [r.raw];
      lastAt := r.at;
      Take(r.raw, before);
      out := value;
    }

    method Take(raw: int, ghost before: seq<int>)
      requires Holds(before)
      modifies this`count, this`next, this`value, window
      ensures Holds(before + [raw])
    {
      ghost var rs := before + [raw];
      window[next] := raw;
      next := (next + 1) % 3;
      count := if count + 1 < 3 then count + 1 else 3;
      assert rs[..|before|] == before;
      forall i | |rs| - count <= i < |rs|
        ensures window[i % 3] == rs[i]
      {
        if i < |before| {
          OtherPlace(i, |before|);
        }
      }
      var median := WindowMedian(rs);
      value := if count == 1 then median else value + 0.4 * (median - value);
    }
  }

  lemma OtherPlace(i: nat, n: nat)
    requires n - 2 <= i < n
    ensures i % 3 != n % 3
  {
  }

  lemma AnyOrder(a: int, b: int, c: int)
    ensures Middle(a, b, c) == Middle(b, c, a) == Middle(c, a, b)
  {
  }

  // ------------------------------------------------------------------ what it means

  /** The output never leaves the range of the readings since the last reset. */
  lemma {:induction false} OutputInHull(rs: seq<int>, lo: int, hi: int)
    requires rs != [] && forall i :: 0 <= i < |rs| ==> lo <= rs[i] <= hi
    ensures lo as real <= Output(rs) <= hi as real
    decreases |rs|
  {
    if |rs| > 1 {
      OutputInHull(rs[..|rs| - 1], lo, hi);
    }
  }

  predicate Good(r: int, lo: int, hi: int) { lo <= r <= hi }

  /** At least two of the three readings that end at `i` are good. */
  predicate TwoGood(rs: seq<int>, i: int, lo: int, hi: int)
    requires 2 <= i < |rs|
  {
    var a, b, c := Good(rs[i - 2], lo, hi), Good(rs[i - 1], lo, hi), Good(rs[i], lo, hi);
    (a || b) && (a || c) && (b || c)
  }

  /** Outliers, however far off, do not move the output out of the range of the good
      readings, when the first two are good and of any three in a row at most one is
      an outlier. */
  lemma {:induction false} OutliersAreIgnored(rs: seq<int>, lo: int, hi: int)
    requires rs != [] && Good(rs[0], lo, hi) && (|rs| > 1 ==> Good(rs[1], lo, hi))
    requires forall i :: 2 <= i < |rs| ==> TwoGood(rs, i, lo, hi)
    ensures lo as real <= Output(rs) <= hi as real
    decreases |rs|
  {
    hide TwoGood, Middle;
    var n := |rs|;
    if n > 1 {
      var init := rs[..n - 1];
      forall i | 2 <= i < n - 1
        ensures TwoGood(init, i, lo, hi)
      {
        SamePlace(rs, init, i, lo, hi);
      }
      OutliersAreIgnored(init, lo, hi);
      if n > 2 {
        MiddleIsGood(rs, n - 1, lo, hi);
      }
    }
  }

  lemma SamePlace(rs: seq<int>, init: seq<int>, i: nat, lo: int, hi: int)
    requires 2 <= i < |init| && init <= rs && TwoGood(rs, i, lo, hi)
    ensures TwoGood(init, i, lo, hi)
  {
  }

  lemma MiddleIsGood(rs: seq<int>, i: nat, lo: int, hi: int)
    requires 2 <= i < |rs| && TwoGood(rs, i, lo, hi)
    ensures Good(Middle(rs[i - 2], rs[i - 1], rs[i]), lo, hi)
  {
  }

  function Shrunk(width: real, k: nat): real { if k == 0 then width else 0.6 * Shrunk(width, k - 1) }

  /** After `k` equal readings the output is within 0.6^(k-1) of the range's width. */
  lemma {:induction false} ConvergesTo(rs: seq<int>, k: nat, lo: int, hi: int)
    requires 1 <= k <= |rs| && forall i :: 0 <= i < |rs| ==> lo <= rs[i] <= hi
    requires forall i :: |rs| - k <= i < |rs| ==> rs[i] == rs[|rs| - 1]
    ensures var c, bound := rs[|rs| - 1] as real, Shrunk((hi - lo) as real, k - 1);
            -bound <= Output(rs) - c <= bound
    decreases k
  {
    var n := |rs|;
    if k == 1 {
      OutputInHull(rs, lo, hi);
    } else {
      var init := rs[..n - 1];
      assert rs[n - 2] == rs[n - 1];
      ConvergesTo(init, k - 1, lo, hi);
      assert Median(rs) == rs[n - 1] as real;
    }
  }

  function Repeated(r: int, n: nat): (rs: seq<int>)
    ensures |rs| == n && forall i :: 0 <= i < n ==> rs[i] == r
  {
    if n == 0 then [] else Repeated(r, n - 1) + [r]
  }

  /** The step response, exactly: after a level `u` seen at least twice a jump to `v`
      is held back for one reading, and then 0.6 of the way left remains each time. */
  lemma {:induction false} StepResponse(u: int, v: int, m: nat, k: nat)
    requires m >= 2 && k >= 1
    ensures Output(Repeated(u, m) + Repeated(v, k)) == v as real + Shrunk((u - v) as real, k - 1)
    decreases k
  {
    var rs := Repeated(u, m) + Repeated(v, k);
    var n := m + k;
    if k == 1 {
      Level(u, m);
      assert rs[..n - 1] == Repeated(u, m) && rs[n - 3] == u && rs[n - 2] == u && rs[n - 1] == v;
    } else {
      StepResponse(u, v, m, k - 1);
      assert rs[..n - 1] == Repeated(u, m) + Repeated(v, k - 1) && rs[n - 2] == v && rs[n - 1] == v;
    }
  }

  lemma {:induction false} Level(u: int, m: nat)
    requires m >= 1
    ensures Output(Repeated(u, m)) == u as real
    decreases m
  {
    if m > 1 {
      Level(u, m - 1);
      assert Repeated(u, m)[..m - 1] == Repeated(u, m - 1);
    }
  }

  /** The first two readings: the second one counts a fifth. */
  lemma FirstReadings(u: int, v: int)
    ensures Output([u]) == u as real
    ensures Output([u, v]) == 0.8 * u as real + 0.2 * v as real
  {
    assert [u, v][..1] == [u];
  }

  /** The middle value is one of the three, with at most one below and one above it. */
  lemma MiddleIsMedian(a: int, b: int, c: int)
    ensures var m := Middle(a, b, c);
            && (m == a || m == b || m == c)
            && ((m <= a && m <= b) || (m <= a && m <= c) || (m <= b && m <= c))
            && ((m >= a && m >= b) || (m >= a && m >= c) || (m >= b && m >= c))
  {
  }

  /** Nothing resets the filter from reading `k` on: all are valid, and none comes later
      after the one before it than its limit. */
  predicate Connected(ins: seq<Reading>, k: nat) {
    && k <= |ins|
    && (forall i :: k <= i < |ins| ==> ins[i].valid)
    && (forall i :: k < i < |ins| ==> Elapsed(ins[i].at, ins[i - 1].at) <= ins[i].staleMs)
  }

  /** `rs` are the distances from reading `k` on. */
  predicate Raws(ins: seq<Reading>, k: nat, rs: seq<int>) {
    k <= |ins| && |rs| == |ins| - k && forall i :: 0 <= i < |rs| ==> rs[i] == ins[k + i].raw
  }

  /** Reading `k` is the first one, or comes after a reset: an invalid reading before
      it, or a gap. */
  predicate AfterReset(ins: seq<Reading>, k: nat)
    requires k <= |ins|
  {
    k == 0 || !ins[k - 1].valid || (k < |ins| && Elapsed(ins[k].at, ins[k - 1].at) > ins[k].staleMs)
  }

  /** What the filter holds are the readings since the last reset, and nothing else than
      an invalid reading or a gap is a reset. */
  lemma {:induction false} HeldSinceReset(ins: seq<Reading>) returns (k: nat)
    ensures Connected(ins, k) && Raws(ins, k, Since(ins)) && AfterReset(ins, k)
    decreases |ins|
  {
    hide Connected, Raws, AfterReset;
    if ins == [] {
      k := 0;
      NothingHeld();
    } else {
      var n := |ins| - 1;
      var init, r := ins[..n], ins[n];
      var before := HeldSinceReset(init);
      k := if !r.valid then n + 1 else if Since(init) != [] && Elapsed(r.at, ins[n - 1].at) > r.staleMs then n else before;
      OneMoreReading(init, r, before, Since(init));
      assert ins == init + [r];
    }
  }

  lemma NothingHeld()
    ensures Connected([], 0) && Raws([], 0, []) && AfterReset([], 0)
  {
  }

  lemma OneMoreReading(init: seq<Reading>, r: Reading, k: nat, rs: seq<int>)
    requires Connected(init, k) && Raws(init, k, rs) && AfterReset(init, k)
    ensures var ins, n := init + [r], |init|;
            if !r.valid then Connected(ins, n + 1) && Raws(ins, n + 1, []) && AfterReset(ins, n + 1)
            else if rs != [] && Elapsed(r.at, init[n - 1].at) > r.staleMs
            then Connected(ins, n) && Raws(ins, n, [r.raw]) && AfterReset(ins, n)
            else Connected(ins, k) && Raws(ins, k, rs + [r.raw]) && AfterReset(ins, k)
  {
    var ins := init + [r];
    assert forall i :: 0 <= i < |init| ==> ins[i] == init[i];
    assert ins[|init|] == r;
  }
}
