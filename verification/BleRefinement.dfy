/** What a fetch through retained handles is worth: it writes nothing before it
    knows the scale, discovers at most once, and tells what a full fetch tells. */
module BleRefinement {
  import opened Crc
  import opened HistoryRecord
  import opened BleFetch

  // -------------------------------------------------------------- on every trace

  /** Nothing but reads, writes and pairings has been added. */
  predicate Extends(before: seq<Op>, after: seq<Op>) {
    before <= after && forall i :: |before| <= i < |after| ==> after[i] != Discover
  }

  /** The trace of a round: a discovery first, unless the handles are cached, and
      before any write a device information text that fits the peer, and fits the
      cache when the handles are cached. */
  predicate Vetted(c: Cache, peer: Peer, cached: bool, trace: seq<Op>) {
    var at := if cached then 0 else 1;
    && (forall i :: 0 <= i < |trace| ==> (trace[i] == Discover <==> !cached && i == 0))
    && (!cached ==> |trace| > 0)
    && (forall i :: 0 <= i < |trace| && trace[i].Write? ==> at < i && Known(c, peer, cached, trace[at]))
  }

  predicate Known(c: Cache, peer: Peer, cached: bool, op: Op) {
    op.Read? && op.got.Some? && Compatible(peer, CString(op.got.value)) && (cached ==> CString(op.got.value) == c.identity)
  }

  lemma IdentifyVets(c: Cache, peer: Peer, s: Scale, link: Link, cached: bool, st: State)
    ensures var p := Identify(c, peer, s, link, cached, st);
            && Vetted(c, peer, cached, p.trace)
            && (p.verdict.Fine? ==> var at := if cached then 0 else 1; at < |p.trace| && Known(c, peer, cached, p.trace[at]))
  {
    hide Compatible, CString, Got, Short, Long, Versioned;
  }

  lemma ExtensionStaysVetted(c: Cache, peer: Peer, cached: bool, before: seq<Op>, after: seq<Op>)
    requires Vetted(c, peer, cached, before) && Extends(before, after)
    requires var at := if cached then 0 else 1; at < |before| && Known(c, peer, cached, before[at])
    ensures Vetted(c, peer, cached, after)
  {
    hide Known;
  }

  lemma RestExtends(c: Cache, s: Scale, link: Link, cached: bool, p: Progress)
    ensures Extends(p.trace, FetchName(c, s, link, cached, p).trace)
    ensures Extends(p.trace, FetchConfig(s, link, cached, p).trace)
    ensures Extends(p.trace, FetchTouch(c, s, link, cached, p).trace)
  {
    hide CString, Got, Short, Long, Versioned, Configured;
  }

  lemma LastExtend(maintenance: bool, s: Scale, link: Link, cached: bool, p: Progress)
    ensures Extends(p.trace, FetchOffer(s, link, maintenance, p).trace)
    ensures Extends(p.trace, Report(link, p).trace)
    ensures Extends(p.trace, FetchControl(s, link, cached, p).trace)
  {
    hide Got, Short, Long, Versioned, Commanded;
  }

  lemma RoundIsVetted(c: Cache, peer: Peer, maintenance: bool, s: Scale, link: Link, cached: bool, st: State)
    ensures Vetted(c, peer, cached, Round(c, peer, maintenance, s, link, cached, st).trace)
  {
    hide Identify, FetchName, FetchConfig, FetchTouch, FetchOffer, Report, FetchControl, Vetted, Known;
    IdentifyVets(c, peer, s, link, cached, st);
    var p0 := Identify(c, peer, s, link, cached, st);
    if p0.verdict.Fine? {
      var p1 := FetchName(c, s, link, cached, p0);
      var p2 := FetchConfig(s, link, cached, p1);
      var p3 := FetchTouch(c, s, link, cached, p2);
      var p4 := FetchOffer(s, link, maintenance, p3);
      var p5 := Report(link, p4);
      RestExtends(c, s, link, cached, p0);
      RestExtends(c, s, link, cached, p1);
      RestExtends(c, s, link, cached, p2);
      LastExtend(maintenance, s, link, cached, p3);
      LastExtend(maintenance, s, link, cached, p4);
      LastExtend(maintenance, s, link, cached, p5);
      var p := Round(c, peer, maintenance, s, link, cached, st);
      assert Extends(p0.trace, p.trace);
      ExtensionStaysVetted(c, peer, cached, p0.trace, p.trace);
    }
  }

  /** A fetch discovers at most once, whatever fails; a maintenance fetch and one
      without a matching cache discover first. And no handle is written before a
      device information text, read through the same set of handles, has shown the
      right scale; through retained handles also the retained firmware identity. */
  lemma WritesOnlyToTheKnownScale(c: Cache, peer: Peer, maintenance: bool, s: Scale, first: Link, second: Link)
    ensures var r := Fetch(c, peer, maintenance, s, first, second);
            && (forall i, j :: 0 <= i < j < |r.trace| && r.trace[i] == Discover ==> r.trace[j] != Discover)
            && (maintenance || !Hit(c, peer) ==> |r.trace| > 0 && r.trace[0] == Discover)
            && (forall k :: 0 <= k < |r.trace| && r.trace[k].Write? ==> exists j :: VettedAt(c, peer, r.trace, j, k))
  {
    hide Round, Finish, Known;
    var cached := !maintenance && Hit(c, peer);
    var p := Round(c, peer, maintenance, s, first, cached, BLANK);
    RoundIsVetted(c, peer, maintenance, s, first, cached, BLANK);
    OnlyCachedAsksAgain(c, peer, maintenance, s, first, cached, BLANK);
    var r := Fetch(c, peer, maintenance, s, first, second);
    var stale := c.(valid := false);
    var q := Round(stale, peer, maintenance, s, second, false, p.state);
    RoundIsVetted(stale, peer, maintenance, s, second, false, p.state);
    FinishTrace(c, peer, p, []);
    FinishTrace(stale, peer, q, p.trace);
    forall k | 0 <= k < |r.trace| && r.trace[k].Write?
      ensures exists j :: VettedAt(c, peer, r.trace, j, k)
    {
      if k < |p.trace| {
        assert r.trace[k] == p.trace[k];
        var j := if cached then 0 else 1;
        assert r.trace[j] == p.trace[j];
        assert (Discover !in r.trace[..j]) == cached by {
          if !cached { assert r.trace[..j][0] == Discover; }
        }
        assert VettedAt(c, peer, r.trace, j, k);
      } else {
        assert r.trace[k] == q.trace[k - |p.trace|];
        assert r.trace[|p.trace| + 1] == q.trace[1] && r.trace[|p.trace|] == q.trace[0] == Discover;
        assert Known(c, peer, false, q.trace[1]) by { KnownAnyCache(c, stale, peer, q.trace[1]); }
        assert r.trace[..|p.trace| + 1][|p.trace|] == Discover;
        assert VettedAt(c, peer, r.trace, |p.trace| + 1, k);
      }
    }
  }

  lemma KnownAnyCache(c: Cache, d: Cache, peer: Peer, op: Op)
    requires Known(d, peer, false, op)
    ensures Known(c, peer, false, op)
  {
  }

  lemma FinishTrace(c: Cache, peer: Peer, p: Progress, before: seq<Op>)
    ensures Finish(c, peer, p, before).trace == before + p.trace
  {
  }

  predicate VettedAt(c: Cache, peer: Peer, trace: seq<Op>, j: int, k: int) {
    && 0 <= j < k < |trace|
    && (forall i :: j <= i < k ==> trace[i] != Discover)
    && Known(c, peer, Discover !in trace[..j], trace[j])
  }

  /** In a round, also in one after an abandoned round, and with an acknowledging
      scale, no command is read before this display has reported itself in the same
      round; otherwise the round fails and leaves the command fields as they were. */
  lemma ReportsBeforeCommands(c: Cache, peer: Peer, maintenance: bool, s: Scale, link: Link, cached: bool, st: State)
    ensures var p := Round(c, peer, maintenance, s, link, cached, st);
            p.handles.report != 0 && p.handles.ack != 0 ==>
              if link.secureReport && link.report then p.verdict.Fine? && p.handles.control != 0 ==> Ordered(p.trace, p.handles)
              else !p.verdict.Fine? && SameCommand(p.state, st)
  {
    hide Identify, FetchName, FetchConfig, FetchTouch, FetchOffer, Report, FetchControl;
    var p0 := Identify(c, peer, s, link, cached, st);
    var p1 := FetchName(c, s, link, cached, p0);
    var p2 := FetchConfig(s, link, cached, p1);
    var p3 := FetchTouch(c, s, link, cached, p2);
    var p4 := FetchOffer(s, link, maintenance, p3);
    var p5 := Report(link, p4);
    EarlyPhases(c, peer, maintenance, s, link, cached, st, p0, p1, p2, p3);
    ReportFacts(link, p4);
    if p5.verdict.Fine? {
      ControlFacts(s, link, cached, p5);
    }
  }

  /** The last exchange reads the command, after a report that got through. */
  predicate Ordered(trace: seq<Op>, h: Handles) {
    var n := |trace|;
    n > 1 && trace[n - 1].Read? && trace[n - 1].handle == h.control && Write(h.report, true) in trace[..n - 1]
  }

  /** So does every whole fetch that succeeds, rediscovered or not, with the handles
      it ends with. */
  lemma FetchReportsBeforeCommands(c: Cache, peer: Peer, maintenance: bool, s: Scale, first: Link, second: Link)
    ensures var r := Fetch(c, peer, maintenance, s, first, second); var h := r.cache.handles;
            r.error == None && h.report != 0 && h.ack != 0 && h.control != 0 ==> Ordered(r.trace, h)
  {
    hide Round, Ordered, Compatible;
    var cached := !maintenance && Hit(c, peer);
    var p := Round(c, peer, maintenance, s, first, cached, BLANK);
    ReportsBeforeCommands(c, peer, maintenance, s, first, cached, BLANK);
    RoundIsCompatible(c, peer, maintenance, s, first, cached, BLANK);
    var stale := c.(valid := false);
    var q := Round(stale, peer, maintenance, s, second, false, p.state);
    ReportsBeforeCommands(stale, peer, maintenance, s, second, false, p.state);
    RoundIsCompatible(stale, peer, maintenance, s, second, false, p.state);
    OrderedLater([], p.trace, p.handles);
    OrderedLater(p.trace, q.trace, q.handles);
  }

  lemma OrderedLater(before: seq<Op>, trace: seq<Op>, h: Handles)
    ensures Ordered(trace, h) ==> Ordered(before + trace, h)
  {
    if Ordered(trace, h) {
      var i :| 0 <= i < |trace| - 1 && trace[i] == Write(h.report, true);
      assert (before + trace)[..|before + trace| - 1][|before| + i] == Write(h.report, true);
    }
  }

  /** A round that succeeds ends with a text that fits the peer, so a successful
      fetch always fills the cache. */
  lemma RoundIsCompatible(c: Cache, peer: Peer, maintenance: bool, s: Scale, link: Link, cached: bool, st: State)
    ensures var p := Round(c, peer, maintenance, s, link, cached, st);
            p.verdict.Fine? ==> Compatible(peer, p.state.deviceInfo)
  {
    hide Compatible, Identify, FetchName, FetchConfig, FetchTouch, FetchOffer, Report, FetchControl;
    var p0 := Identify(c, peer, s, link, cached, st);
    var p1 := FetchName(c, s, link, cached, p0);
    var p2 := FetchConfig(s, link, cached, p1);
    var p3 := FetchTouch(c, s, link, cached, p2);
    var p4 := FetchOffer(s, link, maintenance, p3);
    IdentifyFits(c, peer, s, link, cached, st);
    EarlyPhases(c, peer, maintenance, s, link, cached, st, p0, p1, p2, p3);
    ReportFacts(link, p4);
    ControlFacts(s, link, cached, Report(link, p4));
  }

  lemma IdentifyFits(c: Cache, peer: Peer, s: Scale, link: Link, cached: bool, st: State)
    ensures var p := Identify(c, peer, s, link, cached, st); p.verdict.Fine? ==> Compatible(peer, p.state.deviceInfo)
  {
    hide Compatible, CString, Got, Short, Long, Versioned;
  }

  predicate SameCommand(a: State, b: State) {
    a.controlFlags == b.controlFlags && a.command == b.command && a.ackSupported == b.ackSupported
  }

  predicate Keeping(p: Progress, q: Progress) {
    q.handles == p.handles && SameCommand(q.state, p.state) && q.state.deviceInfo == p.state.deviceInfo
  }

  lemma EarlyPhases(c: Cache, peer: Peer, maintenance: bool, s: Scale, link: Link, cached: bool, st: State,
                    p0: Progress, p1: Progress, p2: Progress, p3: Progress)
    ensures SameCommand(Identify(c, peer, s, link, cached, st).state, st)
    ensures Keeping(p0, FetchName(c, s, link, cached, p0)) && Keeping(p1, FetchConfig(s, link, cached, p1))
    ensures Keeping(p2, FetchTouch(c, s, link, cached, p2)) && Keeping(p3, FetchOffer(s, link, maintenance, p3))
    ensures FetchOffer(s, link, maintenance, p3).verdict == p3.verdict
  {
    hide CString, Got, Short, Long, Versioned, Compatible;
  }

  lemma ReportFacts(link: Link, p: Progress)
    ensures var q := Report(link, p);
            && Keeping(p, q)
            && (p.handles.report != 0 && p.handles.ack != 0 ==>
                  if link.secureReport && link.report then q.verdict == p.verdict && Write(p.handles.report, true) in q.trace
                  else q.verdict == Wrong(NotReported))
  {
    if link.secureReport && link.report && p.handles.report != 0 {
      var q := Report(link, p);
      assert q.trace[|q.trace| - 1] == Write(p.handles.report, true);
    }
  }

  lemma ControlFacts(s: Scale, link: Link, cached: bool, p: Progress)
    ensures FetchControl(s, link, cached, p).handles == p.handles
    ensures FetchControl(s, link, cached, p).state.deviceInfo == p.state.deviceInfo
    ensures var q := FetchControl(s, link, cached, p); var n := |q.trace|;
            q.verdict.Fine? && p.handles.control != 0 ==>
              n > 1 && q.trace[n - 1].Read? && q.trace[n - 1].handle == p.handles.control && p.trace <= q.trace[..n - 1]
  {
    hide Got, Short, Versioned;
  }

  // --------------------------------------------------------- what the scale says

  // From the attribute table alone, not through the reads of a fetch.

  /** The first `size` bytes of a characteristic of protocol version 1. */
  function Fields(s: Scale, handle: nat, size: nat): Option<seq<byte>>
    requires size > 0
  {
    if handle in s.values && |s.values[handle]| >= size && s.values[handle][0] == 1 then Some(s.values[handle][..size]) else None
  }

  function InfoOf(s: Scale): Option<seq<byte>> {
    if s.handles.info in s.values && |s.values[s.handles.info]| <= 96 then Some(s.values[s.handles.info]) else None
  }

  function SnapshotOf(s: Scale): Option<seq<byte>> { Fields(s, s.handles.snapshot, 20) }

  function NameOf(s: Scale): Option<seq<byte>> {
    if s.handles.name in s.values && |s.values[s.handles.name]| <= 32 then Some(s.values[s.handles.name]) else None
  }

  function ConfigOf(s: Scale): Option<seq<byte>> { if s.handles.config != 0 then Fields(s, s.handles.config, 6) else None }

  function TouchOf(s: Scale): byte {
    var f := Fields(s, s.handles.touch, 3);
    if s.handles.touch != 0 && f.Some? then f.value[1] else 0
  }

  function OfferOf(s: Scale): Option<seq<byte>> {
    if s.handles.offer != 0 && s.handles.offer in s.values && |s.values[s.handles.offer]| == 139
    then Fields(s, s.handles.offer, 139) else None
  }

  function ControlOf(s: Scale): Option<seq<byte>> { if s.handles.control != 0 then Fields(s, s.handles.control, 4) else None }

  function TextOf(got: Option<seq<byte>>): Text { if got.Some? then CString(got.value) else [] }

  function RevisionOf(s: Scale): byte { if ConfigOf(s).Some? then ConfigOf(s).value[2] else 0 }

  function ProfileOf(s: Scale): byte { if SnapshotOf(s).Some? then SnapshotOf(s).value[19] else 0 }

  /** Bytes `at` and `at + 1` of a characteristic as a number, 0 without it. */
  function Number(b: Option<seq<byte>>, at: nat): int {
    if b.Some? && at + 1 < |b.value| then b.value[at] as int + 256 * b.value[at + 1] as int else 0
  }

  /** What a scale has to say, characteristic by characteristic, byte by byte, from
      its attribute table alone. */
  function Truth(s: Scale, maintenance: bool): State {
    var config, control, serving := ConfigOf(s), ControlOf(s), Number(ConfigOf(s), 4);
    State(
      deviceInfo := TextOf(InfoOf(s)),
      name := TextOf(NameOf(s)),
      snapshot := if SnapshotOf(s).Some? then SnapshotOf(s).value else [],
      layout := if config.Some? then config.value[1] else 1,
      revision := if config.Some? then config.value[2] else 0,
      flags := if config.Some? then config.value[3] else 0,
      servingX100 := if serving > 0 then serving else 1600,
      touch := TouchOf(s),
      controlFlags := if control.Some? then control.value[1] else 0,
      command := Number(control, 2),
      ackSupported := s.handles.ack != 0 && Number(control, 2) != 0,
      offer := if maintenance then OfferOf(s) else None)
  }

  /** A scale that answers a full fetch. */
  predicate Answers(s: Scale, peer: Peer) {
    && s.handles.snapshot != 0 && s.handles.name != 0 && s.handles.info != 0
    && InfoOf(s).Some? && Compatible(peer, TextOf(InfoOf(s))) && SnapshotOf(s).Some?
    && NameOf(s).Some? && (s.handles.control != 0 ==> ControlOf(s).Some?)
  }

  function CacheOf(peer: Peer, s: Scale): Cache {
    Cache(true, peer, s.handles, TextOf(InfoOf(s)), TextOf(NameOf(s)), ProfileOf(s), RevisionOf(s), TouchOf(s))
  }

  /** What an abandoned round may leave in the state for the next one. */
  predicate Leftover(st: State, s: Scale) {
    && st.offer == None && st.controlFlags == 0 && st.command == 0 && !st.ackSupported
    && (st.touch == 0 || st.touch == TouchOf(s))
    && var c := if ConfigOf(s).Some? then Configured(BLANK, ConfigOf(s).value) else BLANK;
       || (st.layout == c.layout && st.revision == c.revision && st.flags == c.flags && st.servingX100 == c.servingX100)
       || (st.layout == 1 && st.revision == 0 && st.flags == 0 && st.servingX100 == 1600)
  }

  /** A read of limited length, and the table. */
  lemma ReadsFields(s: Scale, handle: nat, size: nat)
    requires size > 0
    ensures var got := Short(Got(s, handle, true), size);
            Fields(s, handle, size) == if Versioned(got, size) then got else None
    ensures handle in s.values && |s.values[handle]| == size ==>
              Fields(s, handle, size) == if s.values[handle][0] == PROTOCOL then Some(s.values[handle]) else None
  {
    if handle in s.values {
      var v := s.values[handle];
      assert v[..|v|] == v;
    }
  }

  // Each phase, with handles that are the scale's.

  lemma IdentifyFacts(c: Cache, peer: Peer, s: Scale, link: Link, cached: bool, st: State)
    requires cached ==> c.handles == s.handles
    ensures var p := Identify(c, peer, s, link, cached, st);
            && p.handles == s.handles
            && (p.verdict.Fine? <==>
                  link.info && link.snapshot && (cached || Discovered(s, link)) &&
                  InfoOf(s).Some? && Compatible(peer, TextOf(InfoOf(s))) &&
                  (cached ==> TextOf(InfoOf(s)) == c.identity) && SnapshotOf(s).Some?)
            && (cached ==> !p.verdict.Wrong?) && (!cached ==> p.verdict != Again)
            && (if p.verdict.Fine? then p.state == st.(deviceInfo := TextOf(InfoOf(s)), snapshot := SnapshotOf(s).value)
                else p.state == st.(deviceInfo := p.state.deviceInfo))
  {
    hide CString, Compatible;
  }

  lemma NameFacts(c: Cache, s: Scale, link: Link, cached: bool, p: Progress)
    requires p.handles == s.handles && p.verdict.Fine? && ProfileRevision(p.state) == ProfileOf(s)
    ensures var q := FetchName(c, s, link, cached, p); var known := cached && ProfileOf(s) == c.profileRevision;
            && q.handles == s.handles && q.state == p.state.(name := q.state.name)
            && q.verdict == (if known || (link.name && NameOf(s).Some?) then Fine else Wrong(ReadFailed))
            && (q.verdict.Fine? ==> q.state.name == if known then c.name else TextOf(NameOf(s)))
  {
    hide CString;
  }

  lemma ConfigFacts(s: Scale, link: Link, cached: bool, p: Progress)
    requires p.handles == s.handles && p.verdict.Fine?
    ensures var q := FetchConfig(s, link, cached, p); var read := link.config && ConfigOf(s).Some?;
            && q.handles == s.handles && q.state == (if read then Configured(p.state, ConfigOf(s).value) else p.state)
            && q.verdict == (if !read && s.handles.config != 0 && cached then Again else Fine)
  {
    hide Configured;
    ReadsFields(s, s.handles.config, CONFIG_SIZE);
  }

  lemma TouchFacts(c: Cache, s: Scale, link: Link, cached: bool, p: Progress)
    requires p.handles == s.handles && p.verdict.Fine?
    ensures var q := FetchTouch(c, s, link, cached, p); var known := cached && p.state.revision == c.configRevision;
            && q.handles == s.handles && q.state == p.state.(touch := q.state.touch)
            && (q.verdict.Fine? || (cached && q.verdict == Again && !known && (!link.touch || TouchOf(s) == 0)))
            && (if known then q.state.touch == c.touch
                else if link.touch && TouchOf(s) != 0 then q.state.touch == TouchOf(s)
                else q.state.touch == p.state.touch || (link.touch && q.state.touch == TouchOf(s)))
            && (cached && !known && q.verdict.Fine? && !link.touch ==> TouchOf(s) == 0)
  {
  }

  lemma OfferFacts(s: Scale, link: Link, maintenance: bool, p: Progress)
    requires p.handles == s.handles && p.verdict.Fine? && p.state.offer == None
    ensures var q := Report(link, FetchOffer(s, link, maintenance, p));
            && q.handles == s.handles && (q.verdict.Fine? || q.verdict == Wrong(NotReported))
            && (link.secureReport && link.report ==> q.verdict.Fine?)
            && q.state == p.state.(offer := if maintenance && link.offer then OfferOf(s) else None)
  {
    ReadsFields(s, s.handles.offer, OFFER_SIZE);
  }

  lemma ControlAnswers(s: Scale, link: Link, cached: bool, p: Progress)
    requires p.handles == s.handles && p.verdict.Fine?
    ensures var q := FetchControl(s, link, cached, p);
            && q.handles == s.handles
            && (q.verdict.Fine? <==> s.handles.control != 0 ==> link.secureControl && link.control && ControlOf(s).Some?)
            && (cached ==> !q.verdict.Wrong?) && (!cached ==> q.verdict != Again)
            && q.state == (if q.verdict.Fine? && ControlOf(s).Some? then Commanded(p.state, ControlOf(s).value, s.handles.ack)
                           else p.state)
  {
    hide Commanded;
    ReadsFields(s, s.handles.control, CONTROL_SIZE);
  }

  /** A full round succeeds exactly when the scale answers, and tells the truth. */
  lemma FullRound(c: Cache, peer: Peer, maintenance: bool, s: Scale, st: State)
    requires Leftover(st, s)
    ensures var p := Round(c, peer, maintenance, s, CLEAR, false, st);
            && (p.verdict.Fine? <==> Answers(s, peer))
            && (p.verdict.Fine? ==> p.state == Truth(s, maintenance) && p.handles == s.handles)
  {
    hide TextOf, Compatible, Identify, FetchName, FetchConfig, FetchTouch, FetchOffer, Report, FetchControl,
      InfoOf, SnapshotOf, NameOf, ConfigOf, TouchOf, OfferOf, ControlOf;
    Sizes(s);
    IdentifyFacts(c, peer, s, CLEAR, false, st);
    var p0 := Identify(c, peer, s, CLEAR, false, st);
    if p0.verdict.Fine? {
      NameFacts(c, s, CLEAR, false, p0);
      var p1 := FetchName(c, s, CLEAR, false, p0);
      if p1.verdict.Fine? {
        ConfigFacts(s, CLEAR, false, p1);
        var p2 := FetchConfig(s, CLEAR, false, p1);
        TouchFacts(c, s, CLEAR, false, p2);
        var p3 := FetchTouch(c, s, CLEAR, false, p2);
        OfferFacts(s, CLEAR, maintenance, p3);
        ControlAnswers(s, CLEAR, false, Report(CLEAR, FetchOffer(s, CLEAR, maintenance, p3)));
      }
    }
  }

  lemma Sizes(s: Scale)
    ensures SnapshotOf(s).Some? ==> |SnapshotOf(s).value| == SNAPSHOT_SIZE
    ensures ConfigOf(s).Some? ==> |ConfigOf(s).value| == CONFIG_SIZE
    ensures ControlOf(s).Some? ==> |ControlOf(s).value| == CONTROL_SIZE
  {
    hide Got, Short;
  }

  /** What has been read fits the cache: the name is the scale's unless its
      revision has moved on, and so is the threshold. */
  predicate Current(c: Cache, s: Scale) {
    && (ProfileOf(s) == c.profileRevision ==> c.name == TextOf(NameOf(s)))
    && (RevisionOf(s) == c.configRevision ==> c.touch == TouchOf(s))
  }

  /** A round through retained handles that are still the scale's tells the truth
      if and only if the cache is current. */
  lemma RetainedRound(c: Cache, peer: Peer, s: Scale)
    requires c.handles == s.handles
    ensures var p := Round(c, peer, false, s, CLEAR, true, BLANK);
            && (p.verdict.Fine? ==> (p.state == Truth(s, false) <==> Current(c, s)) && p.handles == s.handles)
            && (p.verdict.Wrong? ==> NameOf(s) == None)
            && (!p.verdict.Fine? && (Current(c, s) || c.touch == 0) ==> Leftover(p.state, s))
            && (Answers(s, peer) && TextOf(InfoOf(s)) == c.identity ==>
                  && (p.verdict == Again ==> (s.handles.config != 0 && ConfigOf(s) == None) || TouchOf(s) == 0)
                  && (s.handles.config != 0 && ConfigOf(s) == None ==> p.verdict == Again))
  {
    hide TextOf, Compatible, Identify, FetchName, FetchConfig, FetchTouch, FetchOffer, Report, FetchControl,
      InfoOf, SnapshotOf, NameOf, ConfigOf, TouchOf, OfferOf, ControlOf;
    Sizes(s);
    IdentifyFacts(c, peer, s, CLEAR, true, BLANK);
    var p0 := Identify(c, peer, s, CLEAR, true, BLANK);
    if p0.verdict.Fine? {
      NameFacts(c, s, CLEAR, true, p0);
      var p1 := FetchName(c, s, CLEAR, true, p0);
      if p1.verdict.Fine? {
        ConfigFacts(s, CLEAR, true, p1);
        var p2 := FetchConfig(s, CLEAR, true, p1);
        if p2.verdict.Fine? {
          TouchFacts(c, s, CLEAR, true, p2);
          var p3 := FetchTouch(c, s, CLEAR, true, p2);
          if p3.verdict.Fine? {
            OfferFacts(s, CLEAR, false, p3);
            ControlAnswers(s, CLEAR, true, Report(CLEAR, FetchOffer(s, CLEAR, false, p3)));
          }
        }
      }
    }
  }

  /** A text ends at the first zero of its characteristic, or with it. */
  lemma {:induction false} TextEndsAtZero(b: seq<byte>)
    ensures CString(b) <= b && 0 !in CString(b)
    ensures |CString(b)| == |b| || b[|CString(b)|] == 0
    decreases |b|
  {
    if b != [] && b[0] != 0 {
      TextEndsAtZero(b[1..]);
    }
  }

  /** An identity text fits one scale only, when ids have no semicolon; and it says
      protocol 1. */
  lemma OneScaleFits(p: Peer, q: Peer, info: Text)
    requires Compatible(p, info) && Compatible(q, info) && 59 !in p.scaleId && 59 !in q.scaleId
    ensures p.scaleId == q.scaleId
    ensures forall i :: 0 <= i < 14 ==> 14 <= |info| && info[i] == "protocol=1;id="[i] as int
  {
    IdInText(p, info);
    IdInText(q, info);
    assert info[14 + |p.scaleId|] == 59 && info[14 + |q.scaleId|] == 59;
    assert |p.scaleId| == |q.scaleId|;
  }

  lemma IdInText(p: Peer, info: Text)
    requires Compatible(p, info)
    ensures 14 + |p.scaleId| < |info| && info[14 + |p.scaleId|] == 59
    ensures forall i :: 0 <= i < 14 ==> info[i] == ID_PREFIX[i]
    ensures forall i :: 0 <= i < |p.scaleId| ==> info[14 + i] == p.scaleId[i]
  {
    var a := ID_PREFIX + p.scaleId + [59];
    assert forall i :: 0 <= i < |a| ==> info[i] == a[i];
    forall i | 0 <= i < |p.scaleId|
      ensures info[14 + i] == p.scaleId[i]
    {
      assert a[14 + i] == p.scaleId[i];
    }
  }

  // --------------------------------------------------------------- the refinement

  /** What the retained cache may rely on: a text that still equals the retained
      identity, read where it was, means the same handles; an equal revision means
      an equal name or threshold. */
  predicate Trusted(c: Cache, peer: Peer, s: Scale) {
    !Hit(c, peer) ||
    var seen := Long(Got(s, c.handles.info, true), DEVICE_INFO_MAX);
    (seen.Some? && TextOf(seen) == c.identity ==>
       c.handles == s.handles && Discovered(s, CLEAR) && Current(c, s) &&
       (ProfileOf(s) == c.profileRevision ==> NameOf(s).Some?))
  }

  lemma StaleHandles(c: Cache, peer: Peer, s: Scale)
    requires var got := Long(Got(s, c.handles.info, true), DEVICE_INFO_MAX); got == None || TextOf(got) != c.identity
    ensures var p := Round(c, peer, false, s, CLEAR, true, BLANK);
            p.verdict == Again && Leftover(p.state, s)
  {
    hide CString, Got, Short, Long, Compatible, TouchOf, ConfigOf;
  }

  /** Over a clear link a fetch, through retained handles or not, succeeds exactly
      when the scale answers a full fetch, returns what the scale says, and leaves
      the cache that a full fetch of this scale leaves. */
  lemma FetchTellsTheTruth(c: Cache, peer: Peer, maintenance: bool, s: Scale)
    requires Trusted(c, peer, s)
    ensures var r := Fetch(c, peer, maintenance, s, CLEAR, CLEAR);
            && (r.error == None <==> Answers(s, peer))
            && (r.error == None ==> r.state == Truth(s, maintenance) && r.cache == CacheOf(peer, s))
            && (r.error != None ==> !r.cache.valid)
  {
    hide Round, Truth, Answers, Leftover, Current, Compatible, TextOf, InfoOf, SnapshotOf, NameOf, ConfigOf,
      TouchOf, OfferOf, ControlOf, Discovered;
    var cached := !maintenance && Hit(c, peer);
    BlankIsLeftover(s);
    TruthFields(s, maintenance, peer);
    var stale := c.(valid := false);
    if cached {
      var got := Long(Got(s, c.handles.info, true), DEVICE_INFO_MAX);
      var p := Round(c, peer, false, s, CLEAR, true, BLANK);
      if got.Some? && TextOf(got) == c.identity {
        RetainedRound(c, peer, s);
        RetainedAnswers(c, peer, s);
      } else {
        StaleHandles(c, peer, s);
      }
      if p.verdict == Again {
        FullRound(stale, peer, false, s, p.state);
        OnlyCachedAsksAgain(stale, peer, false, s, CLEAR, false, p.state);
      }
    } else {
      FullRound(c, peer, maintenance, s, BLANK);
      OnlyCachedAsksAgain(c, peer, maintenance, s, CLEAR, false, BLANK);
    }
  }

  lemma BlankIsLeftover(s: Scale)
    ensures Leftover(BLANK, s)
  {
    hide ConfigOf, TouchOf;
  }

  lemma TruthFields(s: Scale, maintenance: bool, peer: Peer)
    ensures var t := Truth(s, maintenance);
            && t.deviceInfo == TextOf(InfoOf(s)) && t.name == TextOf(NameOf(s)) && t.touch == TouchOf(s)
            && t.revision == RevisionOf(s) && ProfileRevision(t) == ProfileOf(s)
    ensures Answers(s, peer) ==> Compatible(peer, TextOf(InfoOf(s))) && NameOf(s).Some?
  {
    hide TextOf, Compatible, InfoOf, NameOf, TouchOf, OfferOf, SnapshotOf, ConfigOf, ControlOf;
    Sizes(s);
  }

  /** A retained round that succeeds has seen all that a full fetch needs. */
  lemma RetainedAnswers(c: Cache, peer: Peer, s: Scale)
    requires c.handles == s.handles && Discovered(s, CLEAR) && (ProfileOf(s) == c.profileRevision ==> NameOf(s).Some?)
    ensures Round(c, peer, false, s, CLEAR, true, BLANK).verdict.Fine? ==> Answers(s, peer)
  {
    hide TextOf, Compatible, Identify, FetchName, FetchConfig, FetchTouch, FetchOffer, Report, FetchControl,
      InfoOf, SnapshotOf, NameOf, ConfigOf, TouchOf, OfferOf, ControlOf;
    Sizes(s);
    IdentifyFacts(c, peer, s, CLEAR, true, BLANK);
    var p0 := Identify(c, peer, s, CLEAR, true, BLANK);
    if p0.verdict.Fine? {
      NameFacts(c, s, CLEAR, true, p0);
      var p1 := FetchName(c, s, CLEAR, true, p0);
      if p1.verdict.Fine? {
        ConfigFacts(s, CLEAR, true, p1);
        var p2 := FetchConfig(s, CLEAR, true, p1);
        if p2.verdict.Fine? {
          TouchFacts(c, s, CLEAR, true, p2);
          var p3 := FetchTouch(c, s, CLEAR, true, p2);
          if p3.verdict.Fine? {
            OfferFacts(s, CLEAR, false, p3);
            ControlAnswers(s, CLEAR, true, Report(CLEAR, FetchOffer(s, CLEAR, false, p3)));
          }
        }
      }
    }
  }

  // --------------------------------------------------------------------- whole runs

  datatype Visit = Visit(peer: Peer, maintenance: bool, scale: Scale)

  /** The scale keeps its part between two visits: new handles come with a new text
      where the old one was, new names and thresholds with new revisions. */
  predicate Keeps(a: Visit, b: Visit) {
    a.peer == b.peer && Answers(a.scale, a.peer) ==> Trusted(CacheOf(a.peer, a.scale), b.peer, b.scale)
  }

  /** Every fetch of a run, retained or full, of any mix of scales, returns what a
      full fetch would, provided a scale fetched twice in a row has kept its part in between. */
  lemma {:induction false} EveryFetchTellsTheTruth(visits: seq<Visit>, caches: seq<Cache>, n: nat)
    requires |caches| == |visits| + 1 && !caches[0].valid && n < |visits|
    requires forall i :: 0 <= i < |visits| ==>
               caches[i + 1] == Fetch(caches[i], visits[i].peer, visits[i].maintenance, visits[i].scale, CLEAR, CLEAR).cache
    requires forall i :: 0 <= i < |visits| - 1 ==> Keeps(visits[i], visits[i + 1])
    ensures var v := visits[n]; var r := Fetch(caches[n], v.peer, v.maintenance, v.scale, CLEAR, CLEAR);
            && (r.error == None <==> Answers(v.scale, v.peer))
            && (r.error == None ==> r.state == Truth(v.scale, v.maintenance))
            && (!caches[n + 1].valid || (caches[n + 1] == CacheOf(v.peer, v.scale) && Answers(v.scale, v.peer)))
    decreases n
  {
    hide Fetch, Truth, Answers, Trusted, CacheOf, Keeps;
    var v := visits[n];
    if n == 0 {
      InvalidIsTrusted(caches[0], v.peer, v.scale);
    } else {
      EveryFetchTellsTheTruth(visits, caches, n - 1);
      assert Keeps(visits[n - 1], v);
      NextIsTrusted(visits[n - 1], v, caches[n]);
    }
    FetchTellsTheTruth(caches[n], v.peer, v.maintenance, v.scale);
  }

  lemma InvalidIsTrusted(c: Cache, peer: Peer, s: Scale)
    ensures !c.valid ==> Trusted(c, peer, s)
  {
    hide TextOf, Long, Got, Discovered, Current;
  }

  lemma NextIsTrusted(a: Visit, b: Visit, c: Cache)
    requires Keeps(a, b) && (!c.valid || (c == CacheOf(a.peer, a.scale) && Answers(a.scale, a.peer)))
    ensures Trusted(c, b.peer, b.scale)
  {
    hide TextOf, Long, Got, Discovered, Current, Answers;
  }
}
