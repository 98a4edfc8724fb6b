/** What whole sequences of LiDAR looks imply about the pour machine, stated on
    the looks themselves rather than on the machine's counters. */
module PourRuns {
  import opened Clock
  import opened TapTypes
  import opened PourControl

  /** One call of `update`: the latest sample as the controller sees it at `now`. */
  datatype Look = Look(s: Sample, now: uint32)

  function After(c: Settings, s0: ControlState, looks: seq<Look>): ControlState {
    if looks == [] then s0
    else
      var last := looks[|looks| - 1];
      After(c, s0, looks[..|looks| - 1]).Update(c, last.s, last.now)
  }

  /** The looks that show a sample with another sequence number than the look
      before them, oldest first; `seen` precedes the first look. */
  function News(seen: uint32, looks: seq<Look>): seq<Look> {
    if looks == [] then []
    else
      var k := |looks| - 1;
      var news := News(seen, looks[..k]);
      if looks[k].s.sequence == LastSeen(seen, looks[..k]) then news else news + [looks[k]]
  }

  function LastSeen(seen: uint32, looks: seq<Look>): uint32 {
    if looks == [] then seen else looks[|looks| - 1].s.sequence
  }

  // ---------------------------------------------------------------- while idle

  /** A look that may count towards readiness. */
  predicate Qualifies(c: Settings, l: Look) {
    && c.stopMm < l.s.mm < c.trayMm - 20
    && c.stopMm < l.s.StableDistance() <= c.maxMm
    && l.s.Fresh(c, l.now)
  }

  /** Qualifying looks, neighbouring samples within the staleness limit. */
  ghost predicate Unbroken(c: Settings, p: seq<Look>) {
    && (forall i :: 0 <= i < |p| ==> Qualifies(c, p[i]))
    && (forall i :: 0 < i < |p| ==> Elapsed(p[i].s.at, p[i - 1].s.at) <= c.staleMs)
  }

  /** All smoothed distances lie inside one band of width `stableMm`. */
  ghost predicate Stable(c: Settings, p: seq<Look>) {
    forall i, j :: 0 <= i < |p| && 0 <= j < |p| ==>
      p[i].s.StableDistance() - p[j].s.StableDistance() <= c.stableMm
  }

  /** The counters of an idle machine summarise the looks `p` it has counted. */
  ghost predicate Summarises(c: Settings, p: seq<Look>, s: ControlState) {
    && !s.pouring
    && s.count == Min(|p|, 5)
    && (|p| > 0 ==>
          && s.lastValid == p[|p| - 1].s.at
          && s.previous == p[|p| - 1].s.mm
          && s.high - s.low <= c.stableMm
          && (forall i :: 0 <= i < |p| ==> s.low <= p[i].s.StableDistance() <= s.high))
  }

  /** The idle machine `s` has counted the last `m` of these. */
  ghost predicate Counts(c: Settings, news: seq<Look>, m: nat, s: ControlState) {
    && m <= |news|
    && Unbroken(c, news[|news| - m..])
    && Summarises(c, news[|news| - m..], s)
  }

  /** The last `m` new looks are the ones the idle machine `s` has counted. */
  ghost predicate Backs(c: Settings, seen: uint32, looks: seq<Look>, m: nat, s: ControlState) {
    s.seen == LastSeen(seen, looks) && Counts(c, News(seen, looks), m, s)
  }

  predicate Adds(c: Settings, s: ControlState, l: Look) {
    l.s.Fresh(c, l.now) && Qualifies(c, l)
  }

  predicate Keeps(c: Settings, s: ControlState, l: Look) {
    var d := l.s.StableDistance();
    Adds(c, s, l) && s.count != 0 && Elapsed(l.s.at, s.lastValid) <= c.staleMs &&
    Max(s.high, d) - Min(s.low, d) <= c.stableMm
  }

  /** A look at a new sample joins the counted looks `p`, restarts them or empties them. */
  function Next(c: Settings, p: seq<Look>, s: ControlState, l: Look): seq<Look> {
    if Keeps(c, s, l) then p + [l] else if Adds(c, s, l) then [l] else []
  }

  lemma NextIsUnbroken(c: Settings, p: seq<Look>, s: ControlState, l: Look)
    requires c.stableMm >= 0 && Unbroken(c, p) && Summarises(c, p, s)
    ensures Unbroken(c, Next(c, p, s, l))
  {
    if Keeps(c, s, l) {
      var p' := p + [l];
      assert forall i :: 0 <= i < |p| ==> p'[i] == p[i];
      assert p'[|p|] == l;
    }
  }

  lemma IdleUpdate(c: Settings, p: seq<Look>, s: ControlState, l: Look)
    requires c.stableMm >= 0 && Summarises(c, p, s) && l.s.sequence != s.seen
    ensures Summarises(c, Next(c, p, s, l), s.Update(c, l.s, l.now))
    ensures s.Update(c, l.s, l.now).seen == l.s.sequence
  {
    if Adds(c, s, l) {
      var base := s.(seen := l.s.sequence);
      assert s.Update(c, l.s, l.now) == base.WhileIdle(c, l.s);
    } else {
      assert s.Update(c, l.s, l.now).count == 0;
    }
  }

  lemma SuffixGrows<T>(news: seq<T>, m: nat, l: T, p': seq<T>)
    requires m <= |news|
    requires p' == news[|news| - m..] + [l] || p' == [l] || p' == []
    ensures |p'| <= |news| + 1
    ensures (news + [l])[|news| + 1 - |p'|..] == p'
  {
  }

  lemma RepeatIsIgnored(c: Settings, s: ControlState, l: Look)
    requires !s.pouring && l.s.sequence == s.seen
    ensures s.Update(c, l.s, l.now) == s
  {
  }

  lemma NewLook(c: Settings, news: seq<Look>, m: nat, s: ControlState, l: Look) returns (m': nat)
    requires c.stableMm >= 0 && Counts(c, news, m, s) && l.s.sequence != s.seen
    ensures Counts(c, news + [l], m', s.Update(c, l.s, l.now)) && s.Update(c, l.s, l.now).seen == l.s.sequence
  {
    hide ControlState.Update, Unbroken, Summarises, Keeps, Adds;
    var p := news[|news| - m..];
    NextIsUnbroken(c, p, s, l);
    IdleUpdate(c, p, s, l);
    SuffixGrows(news, m, l, Next(c, p, s, l));
    m' := |Next(c, p, s, l)|;
  }

  lemma CountsIsIdle(c: Settings, news: seq<Look>, m: nat, s: ControlState)
    requires Counts(c, news, m, s)
    ensures !s.pouring && s.count == Min(m, 5) && m <= |news|
  {
  }

  lemma IdleStep(c: Settings, seen: uint32, looks: seq<Look>, m: nat, s: ControlState, l: Look) returns (m': nat)
    requires c.stableMm >= 0 && Backs(c, seen, looks, m, s)
    ensures Backs(c, seen, looks + [l], m', s.Update(c, l.s, l.now))
  {
    hide ControlState.Update, Counts, News;
    OneMoreLook(seen, looks, l);
    if l.s.sequence == s.seen {
      m' := m;
      CountsIsIdle(c, News(seen, looks), m, s);
      RepeatIsIgnored(c, s, l);
    } else {
      m' := NewLook(c, News(seen, looks), m, s, l);
    }
  }

  lemma {:induction false} OneMoreLook(seen: uint32, looks: seq<Look>, l: Look)
    ensures LastSeen(seen, looks + [l]) == l.s.sequence
    ensures News(seen, looks + [l]) ==
            if l.s.sequence == LastSeen(seen, looks) then News(seen, looks) else News(seen, looks) + [l]
  {
    assert (looks + [l])[..|looks|] == looks;
  }

  lemma {:induction false} IdleBacked(c: Settings, s0: ControlState, looks: seq<Look>) returns (m: nat)
    requires c.stableMm >= 0 && !s0.pouring && s0.count == 0
    ensures Backs(c, s0.seen, looks, m, After(c, s0, looks))
    decreases |looks|
  {
    if looks == [] {
      m := 0;
    } else {
      hide ControlState.Update;
      var k := |looks| - 1;
      m := IdleBacked(c, s0, looks[..k]);
      m := IdleStep(c, s0.seen, looks[..k], m, After(c, s0, looks[..k]), looks[k]);
      assert looks == looks[..k] + [looks[k]];
    }
  }

  /** No pour starts without five new readings: whatever is seen after a stop, the
      last five looks at new samples before a machine is ready are fresh valid
      readings with raw and smoothed distance above the cutoff, stable, close in
      time, and the newest of them is still fresh. */
  lemma {:induction false} ReadyNeedsFiveReadings(c: Settings, s0: ControlState, looks: seq<Look>, now: uint32)
    requires c.stableMm >= 0 && !s0.pouring && s0.count == 0
    requires After(c, s0, looks).Ready(c, now)
    ensures var news := News(s0.seen, looks);
            && |news| >= 5
            && Unbroken(c, news[|news| - 5..]) && Stable(c, news[|news| - 5..])
            && Elapsed(now, news[|news| - 1].s.at) <= c.staleMs
  {
    hide News, After, Counts, Unbroken, Stable;
    var m := IdleBacked(c, s0, looks);
    CountsIsIdle(c, News(s0.seen, looks), m, After(c, s0, looks));
    LastFive(c, News(s0.seen, looks), m, After(c, s0, looks));
  }

  lemma LastFive(c: Settings, news: seq<Look>, m: nat, s: ControlState)
    requires Counts(c, news, m, s) && m >= 5
    ensures Unbroken(c, news[|news| - 5..]) && Stable(c, news[|news| - 5..])
    ensures s.lastValid == news[|news| - 1].s.at
  {
    var p := news[|news| - m..];
    assert news[|news| - 5..] == p[m - 5..];
    assert forall i :: 0 <= i < m ==> p[i] == news[|news| - m + i];
  }

  /** The looks that count now: the newest qualifying ones, as far back as they were
      collected without a gap and within one band. */
  ghost function Segment(c: Settings, news: seq<Look>): seq<Look> {
    if news == [] then []
    else
      var l, before := news[|news| - 1], Segment(c, news[..|news| - 1]);
      if !Qualifies(c, l) then []
      else if before != [] && Elapsed(l.s.at, before[|before| - 1].s.at) <= c.staleMs && Stable(c, before + [l])
      then before + [l]
      else [l]
  }

  /** The band of the machine is as narrow as the looks it has counted. */
  ghost predicate Tight(p: seq<Look>, s: ControlState) {
    p != [] ==>
      && (exists i :: 0 <= i < |p| && p[i].s.StableDistance() == s.low)
      && (exists i :: 0 <= i < |p| && p[i].s.StableDistance() == s.high)
  }

  lemma BandIsSpread(c: Settings, p: seq<Look>, s: ControlState, l: Look)
    requires p != [] && Summarises(c, p, s) && Tight(p, s)
    ensures var d := l.s.StableDistance();
            Max(s.high, d) - Min(s.low, d) <= c.stableMm <==> Stable(c, p + [l])
  {
    var i :| 0 <= i < |p| && p[i].s.StableDistance() == s.low;
    var j :| 0 <= j < |p| && p[j].s.StableDistance() == s.high;
    var all := p + [l];
    assert all[i] == p[i] && all[j] == p[j] && all[|p|] == l;
    if Stable(c, all) {
      assert all[j].s.StableDistance() - all[i].s.StableDistance() <= c.stableMm;
      assert all[|p|].s.StableDistance() - all[i].s.StableDistance() <= c.stableMm;
      assert all[j].s.StableDistance() - all[|p|].s.StableDistance() <= c.stableMm;
    }
  }

  lemma TightNext(c: Settings, p: seq<Look>, s: ControlState, l: Look)
    requires c.stableMm >= 0 && Summarises(c, p, s) && Tight(p, s) && l.s.sequence != s.seen
    ensures Tight(Next(c, p, s, l), s.Update(c, l.s, l.now))
  {
    var d, n, q := l.s.StableDistance(), s.Update(c, l.s, l.now), Next(c, p, s, l);
    if Keeps(c, s, l) {
      var i :| 0 <= i < |p| && p[i].s.StableDistance() == s.low;
      var j :| 0 <= j < |p| && p[j].s.StableDistance() == s.high;
      assert q[i] == p[i] && q[j] == p[j] && q[|p|] == l;
      assert n == s.(seen := l.s.sequence).WhileIdle(c, l.s);
      assert n.low == Min(s.low, d) && n.high == Max(s.high, d);
    } else if Adds(c, s, l) {
      assert n == s.(seen := l.s.sequence).WhileIdle(c, l.s);
      assert n.low == d && n.high == d && q[0] == l;
    }
  }

  /** The idle machine has counted exactly the segment. */
  lemma {:induction false} SegmentIsCounted(c: Settings, s0: ControlState, looks: seq<Look>)
    requires c.stableMm >= 0 && !s0.pouring && s0.count == 0
    ensures var p, s := Segment(c, News(s0.seen, looks)), After(c, s0, looks);
            Summarises(c, p, s) && Tight(p, s) && s.seen == LastSeen(s0.seen, looks)
    decreases |looks|
  {
    hide ControlState.Update, Summarises, Tight;
    if looks == [] {
      NothingCounted(c, s0);
    } else {
      var k := |looks| - 1;
      var init, l := looks[..k], looks[k];
      SegmentIsCounted(c, s0, init);
      assert looks == init + [l];
      OneMoreLook(s0.seen, init, l);
      var news, s := News(s0.seen, init), After(c, s0, init);
      SegmentStep(c, news, s, l);
    }
  }

  lemma NothingCounted(c: Settings, s0: ControlState)
    requires !s0.pouring && s0.count == 0
    ensures Summarises(c, [], s0) && Tight([], s0)
  {
  }

  lemma SegmentStep(c: Settings, news: seq<Look>, s: ControlState, l: Look)
    requires c.stableMm >= 0 && Summarises(c, Segment(c, news), s) && Tight(Segment(c, news), s)
    ensures var n := s.Update(c, l.s, l.now); var p := if l.s.sequence == s.seen then Segment(c, news) else Segment(c, news + [l]);
            Summarises(c, p, n) && Tight(p, n) && n.seen == l.s.sequence
  {
    hide ControlState.Update, Tight, Qualifies, Stable;
    var p := Segment(c, news);
    if l.s.sequence == s.seen {
      RepeatIsIgnored(c, s, l);
    } else {
      assert (news + [l])[..|news|] == news;
      IdleUpdate(c, p, s, l);
      TightNext(c, p, s, l);
      if p != [] {
        BandIsSpread(c, p, s, l);
      }
      NextIsSegment(c, p, s, l);
    }
  }

  lemma NextIsSegment(c: Settings, p: seq<Look>, s: ControlState, l: Look)
    requires Summarises(c, p, s)
    requires p != [] ==> (Max(s.high, l.s.StableDistance()) - Min(s.low, l.s.StableDistance()) <= c.stableMm <==> Stable(c, p + [l]))
    ensures Next(c, p, s, l) ==
            if !Qualifies(c, l) then []
            else if p != [] && Elapsed(l.s.at, p[|p| - 1].s.at) <= c.staleMs && Stable(c, p + [l]) then p + [l]
            else [l]
  {
    hide Stable;
  }

  /** Readiness, exactly: after any looks from a reset machine it is ready if and only
      if both calibrations are there, five looks count, and the newest of them is
      fresh. */
  lemma ReadyExactlyWhen(c: Settings, s0: ControlState, looks: seq<Look>, now: uint32)
    requires c.stableMm >= 0 && !s0.pouring && s0.count == 0
    ensures var p := Segment(c, News(s0.seen, looks));
            After(c, s0, looks).Ready(c, now) <==>
              c.servoCalibrated && c.distanceCalibrated && |p| >= 5 && Elapsed(now, p[|p| - 1].s.at) <= c.staleMs
  {
    hide After, Segment, News, Tight;
    SegmentIsCounted(c, s0, looks);
  }

  /** Five qualifying, stable and timely readings after a reset make the machine ready. */
  lemma {:induction false} FiveReadingsMakeReady(c: Settings, s0: ControlState, looks: seq<Look>, now: uint32)
    requires c.stableMm >= 0 && !s0.pouring && s0.count == 0 && c.servoCalibrated && c.distanceCalibrated
    requires var news := News(s0.seen, looks);
             |news| >= 5 && Unbroken(c, news) && Stable(c, news) && Elapsed(now, news[|news| - 1].s.at) <= c.staleMs
    ensures After(c, s0, looks).Ready(c, now)
  {
    AllCount(c, News(s0.seen, looks));
    ReadyExactlyWhen(c, s0, looks, now);
  }

  lemma {:induction false} AllCount(c: Settings, news: seq<Look>)
    requires Unbroken(c, news) && Stable(c, news)
    ensures Segment(c, news) == news
    decreases |news|
  {
    if news != [] {
      AllCount(c, news[..|news| - 1]);
      assert news == news[..|news| - 1] + [news[|news| - 1]];
    }
  }

  // ------------------------------------------------------------- while pouring

  /** The raw distances of the fresh readings among the new looks `news`. */
  function Readings(c: Settings, news: seq<Look>): seq<int> {
    if news == [] then []
    else
      var l := news[|news| - 1];
      var mms := Readings(c, news[..|news| - 1]);
      if l.s.Fresh(c, l.now) then mms + [l.s.mm] else mms
  }

  /** The invalid or stale looks among `news`. */
  function Faults(c: Settings, news: seq<Look>): seq<Look> {
    if news == [] then []
    else
      var l := news[|news| - 1];
      var faults := Faults(c, news[..|news| - 1]);
      if l.s.Fresh(c, l.now) then faults else faults + [l]
  }

  /** When the newest fresh reading among `news` was taken; `base` if there is none. */
  function Newest(c: Settings, news: seq<Look>, base: uint32): uint32 {
    if news == [] then base
    else
      var l := news[|news| - 1];
      if l.s.Fresh(c, l.now) then l.s.at else Newest(c, news[..|news| - 1], base)
  }

  /** The newest look of `news` is a fault. */
  predicate Unrecovered(c: Settings, news: seq<Look>) {
    news != [] && !news[|news| - 1].s.Fresh(c, news[|news| - 1].now)
  }

  /** Every reading is above the cutoff and in range, none jumps from the one
      before it, the first being compared with `base`. */
  function Before(base: int, mms: seq<int>, i: nat): int
    requires i <= |mms|
  {
    if i == 0 then base else mms[i - 1]
  }

  predicate Near(a: int, b: int, reach: int) { b - reach <= a <= b + reach }

  predicate Steady(c: Settings, base: int, mms: seq<int>) {
    forall i :: 0 <= i < |mms| ==>
      && c.stopMm < mms[i] <= c.maxMm
      && mms[i] < c.trayMm - 20
      && Near(mms[i], Before(base, mms, i), c.jumpMm)
  }

  /** The new looks a running pour may have had: steady readings and at most one
      fault, a no-return sentinel early in the pour. */
  ghost predicate Tolerable(c: Settings, s0: ControlState, news: seq<Look>) {
    && Steady(c, s0.previous, Readings(c, news))
    && |Faults(c, news)| <= 1
    && (forall f :: f in Faults(c, news) ==>
          && !f.s.valid && f.s.mm == NO_RETURN
          && Elapsed(f.now, s0.started) < STARTUP_DROPOUT_WINDOW_MS
          && Elapsed(f.now, f.s.at) <= c.staleMs)
  }

  /** At the last of these looks the pour is within its time limits; the reading it
      rests on is the newest one before this look. */
  predicate OnTime(c: Settings, s0: ControlState, looks: seq<Look>)
    requires looks != []
  {
    var k := |looks| - 1;
    && Elapsed(looks[k].now, s0.started) < c.maxPourMs
    && Elapsed(looks[k].now, Newest(c, News(s0.seen, looks[..k]), s0.lastValid)) <= c.staleMs
    && (Unrecovered(c, News(s0.seen, looks[..k])) ==> Elapsed(looks[k].now, s0.started) < STARTUP_RECOVERY_MS)
  }

  /** The machine's fields while a pour is running, in terms of the new looks. */
  ghost predicate Tracks(c: Settings, s0: ControlState, news: seq<Look>, s: ControlState) {
    var mms := Readings(c, news);
    && s.pouring && s.started == s0.started && s.count == s0.count
    && s.previous == (if mms == [] then s0.previous else mms[|mms| - 1])
    && s.lastValid == Newest(c, news, s0.lastValid)
    && s.dropoutUsed == (Faults(c, news) != [])
    && s.dropoutPending == Unrecovered(c, news)
  }

  /** Safety of a whole pour. A pour started from a ready machine that is still
      running after any sequence of looks was, at every one of them, younger than
      the maximum time and backed by a reading no older than the staleness limit;
      all readings since the start were above the cutoff, in range and free of
      jumps; and at most one sample was ignored, a no-return sentinel in the first
      250 ms that was made good before 350 ms. The clock may wrap. */
  lemma {:induction false} PourSurvivesOnlyIfSafe(c: Settings, s0: ControlState, looks: seq<Look>)
    requires s0.pouring && s0.previous != 0 && !s0.dropoutUsed && !s0.dropoutPending
    requires c.stopMm >= 0
    requires After(c, s0, looks).pouring
    ensures Tolerable(c, s0, News(s0.seen, looks))
    ensures forall k :: 0 < k <= |looks| ==> OnTime(c, s0, looks[..k])
    ensures Tracks(c, s0, News(s0.seen, looks), After(c, s0, looks))
    ensures After(c, s0, looks).seen == LastSeen(s0.seen, looks)
    decreases |looks|
  {
    hide ControlState.Update, Tolerable;
    if looks == [] {
      NothingSeen(c, s0);
    } else {
      var k := |looks| - 1;
      var init, l := looks[..k], looks[k];
      var s := After(c, s0, init);
      if !s.pouring {
        StaysStopped(c, s, l);
        assert false;
      }
      PourSurvivesOnlyIfSafe(c, s0, init);
      KeepsPouring(c, s, l);
      OneMoreLook(s0.seen, init, l);
      assert looks == init + [l];
      if l.s.sequence != s.seen {
        NewReading(c, s0, News(s0.seen, init), s, l, After(c, s0, looks));
      }
      assert OnTime(c, s0, looks);
      forall j | 0 < j <= |looks|
        ensures OnTime(c, s0, looks[..j])
      {
        assert looks[..j] == if j <= k then init[..j] else looks;
      }
    }
  }

  lemma NothingSeen(c: Settings, s0: ControlState)
    requires s0.pouring && !s0.dropoutUsed && !s0.dropoutPending
    ensures Tolerable(c, s0, []) && Tracks(c, s0, [], s0)
  {
  }

  /** Looking at samples never restarts a pour. */
  lemma StaysStopped(c: Settings, s: ControlState, l: Look)
    requires !s.pouring
    ensures !s.Update(c, l.s, l.now).pouring
  {
  }

  /** The ways in which a look can leave a pour running. */
  predicate Kept(c: Settings, s: ControlState, l: Look, next: ControlState) {
    && Elapsed(l.now, s.started) < c.maxPourMs
    && Elapsed(l.now, s.lastValid) <= c.staleMs
    && (s.dropoutPending ==> Elapsed(l.now, s.started) < STARTUP_RECOVERY_MS)
    && next.pouring && next.started == s.started && next.count == s.count && next.seen == l.s.sequence
    && if l.s.sequence == s.seen then next == s
       else if l.s.Fresh(c, l.now) then
         && c.stopMm < l.s.mm <= c.maxMm && l.s.mm < c.trayMm - 20
         && (s.previous != 0 ==> Near(l.s.mm, s.previous, c.jumpMm))
         && next.previous == l.s.mm && next.lastValid == l.s.at
         && next.dropoutUsed == s.dropoutUsed && !next.dropoutPending
       else
         && s.IgnorableSentinel(c, l.s, l.now)
         && next.previous == s.previous && next.lastValid == s.lastValid
         && next.dropoutUsed && next.dropoutPending
  }

  lemma KeepsPouring(c: Settings, s: ControlState, l: Look)
    requires s.pouring && s.Update(c, l.s, l.now).pouring
    ensures Kept(c, s, l, s.Update(c, l.s, l.now))
  {
  }

  lemma SteadyJoin(c: Settings, base: int, mms: seq<int>, mm: int)
    requires Steady(c, base, mms)
    requires c.stopMm < mm <= c.maxMm && mm < c.trayMm - 20
    requires Near(mm, if mms == [] then base else mms[|mms| - 1], c.jumpMm)
    ensures Steady(c, base, mms + [mm])
  {
    hide Near;
    var more := mms + [mm];
    forall i | 0 <= i < |more|
      ensures c.stopMm < more[i] <= c.maxMm && more[i] < c.trayMm - 20
      ensures Near(more[i], Before(base, more, i), c.jumpMm)
    {
      if i < |mms| {
        assert more[i] == mms[i] && Before(base, more, i) == Before(base, mms, i);
      } else {
        assert more[i] == mm && Before(base, more, i) == if mms == [] then base else mms[|mms| - 1];
      }
    }
  }

  lemma NewReading(c: Settings, s0: ControlState, news: seq<Look>, s: ControlState, l: Look, next: ControlState)
    requires s0.previous != 0 && c.stopMm >= 0
    requires Tolerable(c, s0, news) && Tracks(c, s0, news, s)
    requires l.s.sequence != s.seen && Kept(c, s, l, next)
    ensures Tolerable(c, s0, news + [l]) && Tracks(c, s0, news + [l], next)
  {
    var more := news + [l];
    assert more[..|more| - 1] == news;
    var mms := Readings(c, news);
    assert mms != [] ==> mms[|mms| - 1] > c.stopMm;
    var faults, faults' := Faults(c, news), Faults(c, more);
    if l.s.Fresh(c, l.now) {
      assert faults' == faults;
      SteadyJoin(c, s0.previous, mms, l.s.mm);
    } else {
      assert faults == [] && faults' == [l];
      assert Readings(c, more) == mms;
    }
  }

  /** Conversely nothing else ends a pour: it survives these looks if and only if
      each of them is tolerable and in time. */
  lemma {:induction false} PourSurvivesExactlyWhen(c: Settings, s0: ControlState, looks: seq<Look>)
    requires s0.pouring && s0.previous != 0 && !s0.dropoutUsed && !s0.dropoutPending
    requires c.stopMm >= 0
    ensures After(c, s0, looks).pouring <==>
            Tolerable(c, s0, News(s0.seen, looks)) && forall k :: 0 < k <= |looks| ==> OnTime(c, s0, looks[..k])
    decreases |looks|
  {
    hide ControlState.Update, Tolerable, OnTime;
    if After(c, s0, looks).pouring {
      PourSurvivesOnlyIfSafe(c, s0, looks);
    } else if looks != [] && Tolerable(c, s0, News(s0.seen, looks)) && forall k :: 0 < k <= |looks| ==> OnTime(c, s0, looks[..k]) {
      var k := |looks| - 1;
      var init, l := looks[..k], looks[k];
      assert looks == init + [l] && looks[..|looks|] == looks;
      OneMoreLook(s0.seen, init, l);
      FewerAreTolerable(c, s0, News(s0.seen, init), l);
      forall j | 0 < j <= |init|
        ensures OnTime(c, s0, init[..j])
      {
        assert init[..j] == looks[..j];
      }
      PourSurvivesExactlyWhen(c, s0, init);
      PourSurvivesOnlyIfSafe(c, s0, init);
      GoesOn(c, s0, init, l, After(c, s0, init));
      assert false;
    }
  }

  lemma FewerAreTolerable(c: Settings, s0: ControlState, news: seq<Look>, l: Look)
    ensures Tolerable(c, s0, news + [l]) ==> Tolerable(c, s0, news)
  {
    var more := news + [l];
    assert more[..|more| - 1] == news;
    var mms, all := Readings(c, news), Readings(c, more);
    assert forall i :: 0 <= i < |mms| ==> all[i] == mms[i] && Before(s0.previous, all, i) == Before(s0.previous, mms, i);
  }

  /** A look that is tolerable and in time leaves the pour running. */
  lemma GoesOn(c: Settings, s0: ControlState, looks: seq<Look>, l: Look, s: ControlState)
    requires Tracks(c, s0, News(s0.seen, looks), s) && s.seen == LastSeen(s0.seen, looks)
    requires Tolerable(c, s0, News(s0.seen, looks + [l])) && OnTime(c, s0, looks + [l])
    ensures s.Update(c, l.s, l.now).pouring
  {
    hide ControlState.Update, News, Tolerable;
    OneMoreLook(s0.seen, looks, l);
    var news := News(s0.seen, looks);
    assert (looks + [l])[..|looks|] == looks;
    if l.s.sequence == s.seen {
      LookGoesOn(c, s, l);
    } else {
      LastIsTolerable(c, s0, news, l);
      LookGoesOn(c, s, l);
    }
  }

  lemma LastIsTolerable(c: Settings, s0: ControlState, news: seq<Look>, l: Look)
    requires Tolerable(c, s0, news + [l])
    ensures var mms := Readings(c, news);
            if l.s.Fresh(c, l.now) then
              && c.stopMm < l.s.mm <= c.maxMm && l.s.mm < c.trayMm - 20
              && Near(l.s.mm, if mms == [] then s0.previous else mms[|mms| - 1], c.jumpMm)
            else
              && Faults(c, news) == [] && !l.s.valid && l.s.mm == NO_RETURN
              && Elapsed(l.now, s0.started) < STARTUP_DROPOUT_WINDOW_MS && Elapsed(l.now, l.s.at) <= c.staleMs
  {
    hide Near, Elapsed;
    LastJoins(c, news, l);
    var mms, all := Readings(c, news), Readings(c, news + [l]);
    if l.s.Fresh(c, l.now) {
      assert all[|mms|] == l.s.mm;
      assert Before(s0.previous, all, |mms|) == if mms == [] then s0.previous else mms[|mms| - 1];
    } else {
      assert l in Faults(c, news + [l]);
    }
  }

  lemma LastJoins(c: Settings, news: seq<Look>, l: Look)
    ensures if l.s.Fresh(c, l.now) then Readings(c, news + [l]) == Readings(c, news) + [l.s.mm]
            else Faults(c, news + [l]) == Faults(c, news) + [l]
  {
    var more := news + [l];
    assert more[..|more| - 1] == news;
  }

  /** The looks that leave a pour running. */
  lemma LookGoesOn(c: Settings, s: ControlState, l: Look)
    requires s.pouring
    requires Elapsed(l.now, s.started) < c.maxPourMs && (s.dropoutPending ==> Elapsed(l.now, s.started) < STARTUP_RECOVERY_MS)
    requires Elapsed(l.now, s.lastValid) <= c.staleMs
    requires l.s.sequence != s.seen ==>
               if l.s.Fresh(c, l.now)
               then c.stopMm < l.s.mm <= c.maxMm && l.s.mm < c.trayMm - 20 && Near(l.s.mm, s.previous, c.jumpMm)
               else !s.dropoutUsed && !l.s.valid && l.s.mm == NO_RETURN &&
                    Elapsed(l.now, s.started) < STARTUP_DROPOUT_WINDOW_MS && Elapsed(l.now, l.s.at) <= c.staleMs
    ensures s.Update(c, l.s, l.now).pouring
  {
  }

  /** What is said of a pour that a look ends: the time limits come first, then a faulty
      sample, then the cutoff, the range and a jump. */
  lemma EndedLookSaysWhy(c: Settings, s: ControlState, l: Look)
    requires s.pouring && !s.Update(c, l.s, l.now).pouring
    ensures var why, mm := s.Update(c, l.s, l.now).reason, l.s.mm;
            var young, backed := Elapsed(l.now, s.started) < c.maxPourMs, Elapsed(l.now, s.lastValid) <= c.staleMs;
            var inTime := young && backed && (s.dropoutPending ==> Elapsed(l.now, s.started) < 350);
            var sound := inTime && l.s.valid && Elapsed(l.now, l.s.at) <= c.staleMs;
            && (why == MaximumTime <==> !young) && (why == Stale <==> young && !backed)
            && (why == RecoveryTimeout <==> young && backed && !inTime) && (why == Invalid <==> inTime && !sound)
            && (why == FillTarget <==> sound && mm <= c.stopMm)
            && (why == OutOfRange <==> sound && mm > c.stopMm && (mm > c.maxMm || mm >= c.trayMm - 20))
            && (why == Erratic <==> sound && c.stopMm < mm <= c.maxMm && mm < c.trayMm - 20)
  {
  }
}
