/** What lost exchanges cost: a fetch that succeeds over any link tells the truth
    or is silent about the display settings and the threshold, and exactly when a
    threshold that was lost stays lost. */
module BleLosses {
  import opened Crc
  import opened HistoryRecord
  import opened BleFetch
  import opened BleRefinement

  predicate SameConfig(a: State, b: State) {
    a.layout == b.layout && a.revision == b.revision && a.flags == b.flags && a.servingX100 == b.servingX100
  }

  /** `st` tells the truth `t`, except that the display settings may be the defaults
      and the threshold and the offer may be missing. */
  predicate TrueOrSilent(st: State, t: State) {
    && st.deviceInfo == t.deviceInfo && st.name == t.name && st.snapshot == t.snapshot
    && st.controlFlags == t.controlFlags && st.command == t.command && st.ackSupported == t.ackSupported
    && (SameConfig(st, t) || SameConfig(st, BLANK))
    && (st.touch == t.touch || st.touch == 0) && (st.offer == t.offer || st.offer == None)
  }

  /** What the cache says of the name and the threshold is right or missing, as long
      as their revisions have not moved on. */
  predicate Near(c: Cache, s: Scale) {
    && (ProfileOf(s) == c.profileRevision ==> c.name == TextOf(NameOf(s)))
    && (RevisionOf(s) == c.configRevision ==> c.touch == 0 || c.touch == TouchOf(s))
  }

  /** The rest of a round, from the threshold on. */
  function Ending(c: Cache, s: Scale, maintenance: bool, link: Link, cached: bool, p: Progress): Progress {
    var q := FetchTouch(c, s, link, cached, p);
    if !q.verdict.Fine? then q else
    var r := Report(link, FetchOffer(s, link, maintenance, q));
    if !r.verdict.Fine? then r else FetchControl(s, link, cached, r)
  }

  lemma LossyEnding(c: Cache, s: Scale, maintenance: bool, link: Link, cached: bool, p: Progress)
    requires p.handles == s.handles && p.verdict.Fine? && p.state.offer == None
    requires p.state.touch == 0 || p.state.touch == TouchOf(s)
    requires cached ==> Near(c, s) && p.state.revision == RevisionOf(s)
    ensures var q, st := Ending(c, s, maintenance, link, cached, p), p.state;
            && (q.verdict.Fine? ==>
                  && q.handles == s.handles
                  && exists touch, offer ::
                       (touch == 0 || touch == TouchOf(s)) && (offer == None || (maintenance && offer == OfferOf(s))) &&
                       var all := st.(touch := touch, offer := offer);
                       q.state == if ControlOf(s).Some? then Commanded(all, ControlOf(s).value, s.handles.ack) else all)
            && (cached && !maintenance && !q.verdict.Fine? ==>
                  (q.state.touch == 0 || q.state.touch == TouchOf(s)) && q.state == st.(touch := q.state.touch))
  {
    hide FetchTouch, FetchOffer, Report, FetchControl, TouchOf, OfferOf, ControlOf, Commanded;
    NoHandleNoConfig(s);
    TouchFacts(c, s, link, cached, p);
    var q := FetchTouch(c, s, link, cached, p);
    if q.verdict.Fine? {
      OfferFacts(s, link, maintenance, q);
      var r := Report(link, FetchOffer(s, link, maintenance, q));
      assert r.state == p.state.(touch := r.state.touch, offer := r.state.offer);
      if r.verdict.Fine? {
        ControlAnswers(s, link, cached, r);
      }
    }
  }

  /** A round up to the display settings. */
  function Opening(c: Cache, peer: Peer, s: Scale, link: Link, cached: bool, st: State): Progress {
    var p := Identify(c, peer, s, link, cached, st);
    if !p.verdict.Fine? then p else
    var q := FetchName(c, s, link, cached, p);
    if !q.verdict.Fine? then q else FetchConfig(s, link, cached, q)
  }

  lemma LossyOpening(c: Cache, peer: Peer, s: Scale, link: Link, cached: bool, st: State)
    requires cached ==> c.handles == s.handles && Near(c, s)
    ensures var p := Opening(c, peer, s, link, cached, st);
            && (p.verdict.Fine? ==>
                  && p.handles == s.handles && Compatible(peer, TextOf(InfoOf(s))) && (cached || Discovered(s, CLEAR))
                  && SnapshotOf(s).Some?
                  && var told := st.(deviceInfo := TextOf(InfoOf(s)), name := TextOf(NameOf(s)), snapshot := SnapshotOf(s).value);
                     if ConfigOf(s).Some?
                     then p.state == Configured(told, ConfigOf(s).value) || (!cached && p.state == told)
                     else p.state == told)
            && (!p.verdict.Fine? ==>
                  p.state == st.(deviceInfo := p.state.deviceInfo, name := p.state.name, snapshot := p.state.snapshot))
  {
    hide TextOf, Compatible, Identify, FetchName, FetchConfig, Configured, InfoOf, SnapshotOf, NameOf, ConfigOf, TouchOf;
    Sizes(s);
    NoHandleNoConfig(s);
    IdentifyFacts(c, peer, s, link, cached, st);
    var p := Identify(c, peer, s, link, cached, st);
    if p.verdict.Fine? {
      NameFacts(c, s, link, cached, p);
      var q := FetchName(c, s, link, cached, p);
      if q.verdict.Fine? {
        ConfigFacts(s, link, cached, q);
      }
    }
  }

  lemma RoundInTwo(c: Cache, peer: Peer, maintenance: bool, s: Scale, link: Link, cached: bool, st: State)
    ensures var p := Opening(c, peer, s, link, cached, st);
            Round(c, peer, maintenance, s, link, cached, st) ==
            if p.verdict.Fine? then Ending(c, s, maintenance, link, cached, p) else p
  {
    hide Identify, FetchName, FetchConfig, FetchTouch, FetchOffer, Report, FetchControl;
  }

  /** One round over any link. */
  lemma LossyRound(c: Cache, peer: Peer, maintenance: bool, s: Scale, link: Link, cached: bool, st: State)
    requires Leftover(st, s) && (cached ==> c.handles == s.handles && Near(c, s))
    ensures var p := Round(c, peer, maintenance, s, link, cached, st);
            && (p.verdict.Fine? ==>
                  && TrueOrSilent(p.state, Truth(s, maintenance)) && p.handles == s.handles
                  && Compatible(peer, TextOf(InfoOf(s))) && (cached || Discovered(s, CLEAR)))
            && (cached && !maintenance && !p.verdict.Fine? ==> Leftover(p.state, s))
  {
    hide TextOf, Compatible, Discovered, Opening, Ending, Round, InfoOf, SnapshotOf, NameOf, ConfigOf, TouchOf, OfferOf,
         ControlOf;
    Sizes(s);
    NoHandleNoConfig(s);
    RoundInTwo(c, peer, maintenance, s, link, cached, st);
    LossyOpening(c, peer, s, link, cached, st);
    var p := Opening(c, peer, s, link, cached, st);
    if p.verdict.Fine? {
      LossyEnding(c, s, maintenance, link, cached, p);
    }
  }

  lemma NoHandleNoConfig(s: Scale)
    ensures s.handles.config == 0 ==> ConfigOf(s) == None
    ensures s.handles.control == 0 ==> ControlOf(s) == None
  {
    hide Short, Got;
  }

  // ------------------------------------------------------------------ whole fetches

  /** As `Trusted`, but the threshold may be missing from the cache. */
  predicate Reliable(c: Cache, peer: Peer, s: Scale) {
    Hit(c, peer) ==>
      var seen := Long(Got(s, c.handles.info, true), DEVICE_INFO_MAX);
      seen.Some? && TextOf(seen) == c.identity ==> c.handles == s.handles && Discovered(s, CLEAR) && Near(c, s)
  }

  /** What a successful fetch leaves in the cache. */
  predicate Remembers(c: Cache, peer: Peer, s: Scale) {
    && c.valid && c.peer == peer && c.handles == s.handles && Discovered(s, CLEAR)
    && c.identity == TextOf(InfoOf(s)) && c.name == TextOf(NameOf(s)) && c.profileRevision == ProfileOf(s)
    && (c.configRevision == RevisionOf(s) || c.configRevision == 0) && (c.touch == TouchOf(s) || c.touch == 0)
  }

  lemma OldHandles(c: Cache, peer: Peer, s: Scale, link: Link)
    requires var seen := Long(Got(s, c.handles.info, true), DEVICE_INFO_MAX); seen == None || TextOf(seen) != c.identity
    ensures var p := Round(c, peer, false, s, link, true, BLANK);
            p.verdict == Again && Leftover(p.state, s)
  {
    hide CString, Short, Compatible, TouchOf, ConfigOf;
  }

  lemma FinishRemembers(c: Cache, peer: Peer, maintenance: bool, s: Scale, p: Progress, before: seq<Op>)
    requires p.verdict.Fine? ==>
               && TrueOrSilent(p.state, Truth(s, maintenance)) && p.handles == s.handles
               && Compatible(peer, TextOf(InfoOf(s))) && Discovered(s, CLEAR)
    ensures var r := Finish(c, peer, p, before);
            && (r.error == None <==> p.verdict.Fine?)
            && (if r.error == None then r.state == p.state && Remembers(r.cache, peer, s) else !r.cache.valid)
  {
    hide Truth, Compatible, TextOf, InfoOf, NameOf, SnapshotOf, ConfigOf, TouchOf, ControlOf, Discovered;
    TruthFields(s, maintenance, peer);
  }

  /** Whatever is lost on the way, a fetch that succeeds tells the truth, or is silent
      about display settings, threshold and offer; one that fails drops the cache. */
  lemma FetchIsTrueOrSilent(c: Cache, peer: Peer, maintenance: bool, s: Scale, first: Link, second: Link)
    requires Reliable(c, peer, s)
    ensures var r := Fetch(c, peer, maintenance, s, first, second);
            if r.error == None then TrueOrSilent(r.state, Truth(s, maintenance)) && Remembers(r.cache, peer, s)
            else !r.cache.valid
  {
    hide Round, Finish, Truth, Leftover, Near, Compatible, TextOf, InfoOf, NameOf, Discovered, TrueOrSilent, Remembers;
    var cached := !maintenance && Hit(c, peer);
    BlankIsLeftover(s);
    var p := Round(c, peer, maintenance, s, first, cached, BLANK);
    OnlyCachedAsksAgain(c, peer, maintenance, s, first, cached, BLANK);
    if cached {
      var seen := Long(Got(s, c.handles.info, true), DEVICE_INFO_MAX);
      if seen.Some? && TextOf(seen) == c.identity {
        LossyRound(c, peer, maintenance, s, first, true, BLANK);
      } else {
        OldHandles(c, peer, s, first);
      }
    } else {
      LossyRound(c, peer, maintenance, s, first, false, BLANK);
    }
    if p.verdict == Again {
      var stale := c.(valid := false);
      LossyRound(stale, peer, maintenance, s, second, false, p.state);
      var q := Round(stale, peer, maintenance, s, second, false, p.state);
      OnlyCachedAsksAgain(stale, peer, maintenance, s, second, false, p.state);
      FinishRemembers(stale, peer, maintenance, s, q, p.trace);
    } else {
      FinishRemembers(c, peer, maintenance, s, p, []);
    }
  }

  // --------------------------------------------------------------------- whole runs

  datatype LossyVisit = LossyVisit(peer: Peer, maintenance: bool, scale: Scale, first: Link, second: Link)

  /** The scale keeps its part: new handles with a new text where the old one was, a
      new name or threshold with a new revision; and revision 0, which also stands
      for settings that were not read, does not come with another threshold. */
  predicate KeepsPart(a: Scale, b: Scale) {
    var seen := Long(Got(b, a.handles.info, true), DEVICE_INFO_MAX);
    seen.Some? && TextOf(seen) == TextOf(InfoOf(a)) && Discovered(a, CLEAR) ==>
      && b.handles == a.handles && Discovered(b, CLEAR)
      && (ProfileOf(b) == ProfileOf(a) ==> TextOf(NameOf(b)) == TextOf(NameOf(a)))
      && (RevisionOf(b) == RevisionOf(a) || RevisionOf(b) == 0 ==> TouchOf(b) == TouchOf(a))
  }

  lemma RememberedIsReliable(c: Cache, peer: Peer, a: Scale, other: Peer, b: Scale)
    requires (c.valid ==> Remembers(c, peer, a)) && (peer == other ==> KeepsPart(a, b))
    ensures Reliable(c, other, b)
  {
    hide TextOf, Long, Got, Discovered, ProfileOf, RevisionOf, NameOf, TouchOf, InfoOf;
  }

  /** In every run, over any mix of scales and links, every fetch that succeeds tells
      the truth or is silent about display settings, threshold and offer. */
  lemma {:induction false} EveryFetchIsTrueOrSilent(visits: seq<LossyVisit>, caches: seq<Cache>, n: nat)
    requires |caches| == |visits| + 1 && !caches[0].valid && n < |visits|
    requires forall i :: 0 <= i < |visits| ==> caches[i + 1] == Visited(caches[i], visits[i]).cache
    requires forall i :: 0 < i < |visits| && visits[i - 1].peer == visits[i].peer ==> KeepsPart(visits[i - 1].scale, visits[i].scale)
    ensures var v, r := visits[n], Visited(caches[n], visits[n]);
            && (r.error == None ==> TrueOrSilent(r.state, Truth(v.scale, v.maintenance)))
            && (caches[n + 1].valid ==> Remembers(caches[n + 1], v.peer, v.scale))
    decreases n
  {
    hide Fetch, Truth, Remembers, Reliable, KeepsPart, TrueOrSilent;
    var v := visits[n];
    if n == 0 {
      NothingIsReliable(caches[0], v.peer, v.scale);
    } else {
      EveryFetchIsTrueOrSilent(visits, caches, n - 1);
      RememberedIsReliable(caches[n], visits[n - 1].peer, visits[n - 1].scale, v.peer, v.scale);
    }
    FetchIsTrueOrSilent(caches[n], v.peer, v.maintenance, v.scale, v.first, v.second);
  }

  function Visited(c: Cache, v: LossyVisit): Result { Fetch(c, v.peer, v.maintenance, v.scale, v.first, v.second) }

  lemma NothingIsReliable(c: Cache, peer: Peer, s: Scale)
    ensures !c.valid ==> Reliable(c, peer, s)
  {
    hide TextOf, Long, Got, Discovered, Near;
  }

  /** A threshold stored on the scale is what the next fetch returns, and every one
      after it that `FetchTellsTheTruth` speaks of. */
  lemma SavedThresholdIsRead(c: Cache, peer: Peer, maintenance: bool, s: Scale, percent: int)
    requires !Hit(c, peer) && 1 <= percent <= 50 && s.handles.touch != 0 && Answers(WithThreshold(s, percent), peer)
    ensures var r := Fetch(c, peer, maintenance, WithThreshold(s, percent), CLEAR, CLEAR);
            r.error == None && r.state.touch == percent && r.cache.touch == percent
  {
    hide Fetch, Answers, Truth;
    var after := WithThreshold(s, percent);
    MissIsTrusted(c, peer, after);
    FetchTellsTheTruth(c, peer, maintenance, after);
    TruthFields(after, maintenance, peer);
  }

  lemma MissIsTrusted(c: Cache, peer: Peer, s: Scale)
    ensures !Hit(c, peer) ==> Trusted(c, peer, s)
  {
    hide TextOf, Long, Got, Discovered, Current, Hit;
  }

  // ------------------------------------------------------------- the lost threshold

  /** The cache a full fetch over a lossy link leaves. */
  function FilledOver(peer: Peer, s: Scale, link: Link): Cache {
    CacheOf(peer, s).(configRevision := if link.config then RevisionOf(s) else 0, touch := if link.touch then TouchOf(s) else 0)
  }

  lemma FullFetchFills(c: Cache, peer: Peer, s: Scale, link: Link, second: Link)
    requires Fetch(c, peer, true, s, link, second).error == None
    ensures Answers(s, peer) && Fetch(c, peer, true, s, link, second).cache == FilledOver(peer, s, link)
  {
    hide TextOf, Compatible, Identify, FetchName, FetchConfig, FetchTouch, FetchOffer, Report, FetchControl,
      InfoOf, SnapshotOf, NameOf, ConfigOf, TouchOf, OfferOf, ControlOf;
    Sizes(s);
    NoHandleNoConfig(s);
    OnlyCachedAsksAgain(c, peer, true, s, link, false, BLANK);
    IdentifyFacts(c, peer, s, link, false, BLANK);
    var p0 := Identify(c, peer, s, link, false, BLANK);
    if p0.verdict.Fine? {
      NameFacts(c, s, link, false, p0);
      var p1 := FetchName(c, s, link, false, p0);
      if p1.verdict.Fine? {
        ConfigFacts(s, link, false, p1);
        var p2 := FetchConfig(s, link, false, p1);
        TouchFacts(c, s, link, false, p2);
        var p3 := FetchTouch(c, s, link, false, p2);
        OfferFacts(s, link, true, p3);
        var p4 := Report(link, FetchOffer(s, link, true, p3));
        if p4.verdict.Fine? {
          ControlAnswers(s, link, false, p4);
        }
      }
    }
  }

  /** After a full fetch over any link, the next fetch through the retained handles,
      over a clear link, tells the whole truth if and only if the threshold got
      through, or the scale has none or 0, or its display settings cannot be read at
      all, or they were lost while their revision is not 0. */
  lemma ThresholdIsRightExactlyWhen(c: Cache, peer: Peer, s: Scale, link: Link, second: Link)
    requires Fetch(c, peer, true, s, link, second).error == None
    ensures var next := Fetch(Fetch(c, peer, true, s, link, second).cache, peer, false, s, CLEAR, CLEAR);
            && next.error == None
            && (next.state == Truth(s, false) <==>
                  || link.touch || TouchOf(s) == 0
                  || (s.handles.config != 0 && ConfigOf(s) == None)
                  || (!link.config && RevisionOf(s) != 0))
  {
    hide Round, Truth, Answers, Leftover, TextOf, Compatible, InfoOf, SnapshotOf, NameOf, ConfigOf, TouchOf, Discovered;
    FullFetchFills(c, peer, s, link, second);
    var d := FilledOver(peer, s, link);
    assert d.handles == s.handles;
    RetainedRound(d, peer, s);
    var p := Round(d, peer, false, s, CLEAR, true, BLANK);
    AnswersParts(s, peer);
    OnlyCachedAsksAgain(d.(valid := false), peer, false, s, CLEAR, false, p.state);
    TruthFields(s, false, peer);
    if p.verdict == Again {
      FullRound(d.(valid := false), peer, false, s, p.state);
    }
  }

  lemma AnswersParts(s: Scale, peer: Peer)
    ensures Answers(s, peer) ==> NameOf(s).Some? && Discovered(s, CLEAR)
  {
  }

  /** The cache holds the handles and identity of this scale, the revision of its
      readable display settings, and no threshold. */
  predicate Deaf(c: Cache, peer: Peer, s: Scale) {
    && Hit(c, peer) && c.handles == s.handles && c.identity == TextOf(InfoOf(s))
    && c.configRevision == RevisionOf(s) && c.touch == 0
    && Answers(s, peer) && (s.handles.config != 0 ==> ConfigOf(s).Some?)
  }

  lemma DeafFetch(c: Cache, peer: Peer, s: Scale)
    requires Deaf(c, peer, s)
    ensures var r := Fetch(c, peer, false, s, CLEAR, CLEAR);
            && r.error == None && r.state.touch == 0
            && Hit(r.cache, peer) && r.cache.handles == c.handles && r.cache.identity == c.identity
            && r.cache.configRevision == c.configRevision && r.cache.touch == 0
  {
    hide TextOf, Compatible, Identify, FetchName, FetchConfig, FetchTouch, FetchOffer, Report, FetchControl,
      InfoOf, SnapshotOf, NameOf, ConfigOf, TouchOf, OfferOf, ControlOf;
    Sizes(s);
    NoHandleNoConfig(s);
    IdentifyFacts(c, peer, s, CLEAR, true, BLANK);
    var p0 := Identify(c, peer, s, CLEAR, true, BLANK);
    NameFacts(c, s, CLEAR, true, p0);
    var p1 := FetchName(c, s, CLEAR, true, p0);
    ConfigFacts(s, CLEAR, true, p1);
    var p2 := FetchConfig(s, CLEAR, true, p1);
    assert p2.state.revision == RevisionOf(s);
    TouchFacts(c, s, CLEAR, true, p2);
    var p3 := FetchTouch(c, s, CLEAR, true, p2);
    OfferFacts(s, CLEAR, false, p3);
    ControlAnswers(s, CLEAR, true, Report(CLEAR, FetchOffer(s, CLEAR, false, p3)));
  }

  /** What `Deaf` asks of a later state of the scale. */
  predicate StillThere(s: Scale, t: Scale, peer: Peer) {
    && t.handles == s.handles && TextOf(InfoOf(t)) == TextOf(InfoOf(s)) && RevisionOf(t) == RevisionOf(s)
    && Answers(t, peer) && (t.handles.config != 0 ==> ConfigOf(t).Some?)
  }

  /** Once lost, a threshold is returned as 0 by any number of retained fetches,
      whatever the scale's own is and becomes, until its revision changes. */
  lemma {:induction false} LostThresholdSticks(peer: Peer, s: Scale, later: seq<Scale>, caches: seq<Cache>, n: nat)
    requires |caches| == |later| + 1 && n < |later| && Deaf(caches[0], peer, s)
    requires forall i :: 0 <= i < |later| ==> StillThere(s, later[i], peer)
    requires forall i :: 0 <= i < |later| ==> caches[i + 1] == Fetch(caches[i], peer, false, later[i], CLEAR, CLEAR).cache
    ensures var r := Fetch(caches[n], peer, false, later[n], CLEAR, CLEAR); r.error == None && r.state.touch == 0
    ensures Hit(caches[n + 1], peer) && caches[n + 1].handles == s.handles && caches[n + 1].identity == TextOf(InfoOf(s))
    ensures caches[n + 1].configRevision == RevisionOf(s) && caches[n + 1].touch == 0
    decreases n
  {
    hide Fetch, Answers, TextOf, InfoOf, RevisionOf, ConfigOf;
    if n > 0 {
      LostThresholdSticks(peer, s, later, caches, n - 1);
    }
    DeafFetch(caches[n], peer, later[n]);
  }

  /** The full fetch that loses it leaves such a cache. */
  lemma LostThresholdIsDeaf(c: Cache, peer: Peer, s: Scale, link: Link, second: Link)
    requires Fetch(c, peer, true, s, link, second).error == None
    ensures Deaf(Fetch(c, peer, true, s, link, second).cache, peer, s) <==>
              && (link.touch ==> TouchOf(s) == 0) && (link.config || RevisionOf(s) == 0)
              && (s.handles.config != 0 ==> ConfigOf(s).Some?)
  {
    hide Fetch, Answers, TextOf, InfoOf, TouchOf, ConfigOf;
    FullFetchFills(c, peer, s, link, second);
  }

  lemma {:induction false} NoZeroInside(b: seq<byte>)
    requires forall i :: 0 <= i < |b| ==> b[i] != 0
    ensures CString(b) == b
    decreases |b|
  {
    if b != [] {
      NoZeroInside(b[1..]);
    }
  }

  lemma LosesIt(c: Cache, peer: Peer, s: Scale)
    requires Answers(s, peer) && TouchOf(s) != 0 && (s.handles.config != 0 ==> ConfigOf(s).Some?)
    ensures var filled := Fetch(c, peer, true, s, CLEAR.(touch := false), CLEAR).cache;
            Fetch(filled, peer, false, s, CLEAR, CLEAR).state.touch == 0
  {
    hide Fetch, Deaf, TextOf, Compatible, InfoOf, NameOf, SnapshotOf, ConfigOf, TouchOf, ControlOf;
    DeafRound(c, peer, s);
    LostThresholdIsDeaf(c, peer, s, CLEAR.(touch := false), CLEAR);
    DeafFetch(Fetch(c, peer, true, s, CLEAR.(touch := false), CLEAR).cache, peer, s);
  }

  /** Losing the threshold alone does not make the fetch fail. */
  lemma DeafRound(c: Cache, peer: Peer, s: Scale)
    requires Answers(s, peer)
    ensures Fetch(c, peer, true, s, CLEAR.(touch := false), CLEAR).error == None
  {
    hide TextOf, Compatible, Identify, FetchName, FetchConfig, FetchTouch, FetchOffer, Report, FetchControl,
      InfoOf, SnapshotOf, NameOf, ConfigOf, TouchOf, OfferOf, ControlOf;
    var link := CLEAR.(touch := false);
    Sizes(s);
    IdentifyFacts(c, peer, s, link, false, BLANK);
    var p0 := Identify(c, peer, s, link, false, BLANK);
    NameFacts(c, s, link, false, p0);
    var p1 := FetchName(c, s, link, false, p0);
    ConfigFacts(s, link, false, p1);
    var p2 := FetchConfig(s, link, false, p1);
    TouchFacts(c, s, link, false, p2);
    var p3 := FetchTouch(c, s, link, false, p2);
    OfferFacts(s, link, true, p3);
    ControlAnswers(s, link, false, Report(link, FetchOffer(s, link, true, p3)));
  }

  /** A scale with a threshold of 20 percent and no display configuration: it loses
      the threshold that way. */
  lemma ThresholdLostExample()
    ensures var info := ID_PREFIX + [59];
            var snapshot: seq<byte> := [1, 0, 0, 0, 0, 0, 0, 0, 0, 0, 0, 0, 0, 0, 0, 0, 0, 0, 0, 7];
            var s := Scale(Handles(1, 2, 3, 0, 0, 0, 0, 0, 4, 0), map[1 := snapshot, 2 := [], 3 := info, 4 := [1, 20, 0]]);
            var peer := Peer([], 0, []);
            var filled := Fetch(CacheOf(peer, s).(valid := false), peer, true, s, CLEAR.(touch := false), CLEAR).cache;
            Truth(s, false).touch == 20 && Fetch(filled, peer, false, s, CLEAR, CLEAR).state.touch == 0
  {
    hide Round, Fetch, Truth, CacheOf;
    var info := ID_PREFIX + [59];
    NoZeroInside(info);
    assert [] + [59] == [59 as byte];
    var snapshot: seq<byte> := [1, 0, 0, 0, 0, 0, 0, 0, 0, 0, 0, 0, 0, 0, 0, 0, 0, 0, 0, 7];
    var s := Scale(Handles(1, 2, 3, 0, 0, 0, 0, 0, 4, 0), map[1 := snapshot, 2 := [], 3 := info, 4 := [1, 20, 0]]);
    var peer := Peer([], 0, []);
    assert ID_PREFIX + peer.scaleId + [59] == info;
    assert Answers(s, peer) && TouchOf(s) == 20;
    TruthFields(s, false, peer);
    LosesIt(CacheOf(peer, s).(valid := false), peer, s);
  }
}
