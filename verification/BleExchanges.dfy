/** What a fetch does over the air: with which error a full one fails over any link,
    and what a round that succeeds has sent. */
module BleExchanges {
  import opened Crc
  import opened HistoryRecord
  import opened BleFetch
  import opened BleRefinement

  // --------------------------------------------------------- how a full fetch fails

  predicate Answered(s: Scale, handle: nat, ok: bool) { ok && handle in s.values }

  /** The first thing that goes wrong in a full fetch, in the order of its exchanges. */
  function FirstFault(peer: Peer, s: Scale, link: Link): Option<Error> {
    var h := s.handles;
    if !link.discover || h.snapshot == 0 || h.name == 0 || h.info == 0 then Some(NotFound)
    else if !link.info || InfoOf(s) == None then Some(ReadFailed)
    else if !Compatible(peer, TextOf(InfoOf(s))) then Some(InvalidVersion)
    else if !Answered(s, h.snapshot, link.snapshot) then Some(ReadFailed)
    else if SnapshotOf(s) == None then Some(InvalidVersion)
    else if !link.name || NameOf(s) == None then Some(ReadFailed)
    else if h.report != 0 && h.ack != 0 && !(link.secureReport && link.report) then Some(NotReported)
    else if h.control != 0 && !(link.secureControl && Answered(s, h.control, link.control)) then Some(NoControl)
    else if h.control != 0 && ControlOf(s) == None then Some(InvalidVersion)
    else None
  }

  /** Over any link a full fetch fails exactly with its first fault; losing the display
      settings, the threshold or the offer is none. */
  lemma FullFetchFailsWith(c: Cache, peer: Peer, maintenance: bool, s: Scale, link: Link, second: Link)
    requires maintenance || !Hit(c, peer)
    ensures Fetch(c, peer, maintenance, s, link, second).error == FirstFault(peer, s, link)
  {
    hide Hit, Compatible, Identify, FetchName, FetchConfig, FetchTouch, FetchOffer, Report, FetchControl, CacheFrom,
      InfoOf, SnapshotOf, NameOf, ConfigOf, TouchOf, OfferOf, ControlOf, TextOf;
    var p0 := Identify(c, peer, s, link, false, BLANK);
    IdentifyFacts(c, peer, s, link, false, BLANK);
    IdentifyFault(c, peer, s, link);
    if p0.verdict.Fine? {
      NameFacts(c, s, link, false, p0) by { Sizes(s); }
      var p1 := FetchName(c, s, link, false, p0);
      if p1.verdict.Fine? {
        ConfigFacts(s, link, false, p1);
        var p2 := FetchConfig(s, link, false, p1);
        TouchFacts(c, s, link, false, p2);
        var p3 := FetchTouch(c, s, link, false, p2);
        var p4 := Report(link, FetchOffer(s, link, maintenance, p3));
        OfferFacts(s, link, maintenance, p3);
        ReportFault(s, link, maintenance, p3);
        if p4.verdict.Fine? {
          ControlFault(s, link, p4);
        }
      }
    }
  }

  lemma IdentifyFault(c: Cache, peer: Peer, s: Scale, link: Link)
    ensures var p, h := Identify(c, peer, s, link, false, BLANK), s.handles;
            && (!p.verdict.Fine? ==> FirstFault(peer, s, link).Some? && p.verdict == Wrong(FirstFault(peer, s, link).value))
            && (p.verdict.Fine? ==>
                  link.discover && h.snapshot != 0 && h.name != 0 && h.info != 0 && Answered(s, h.snapshot, link.snapshot))
  {
    hide CString, Compatible, NameOf, ControlOf;
    ReadsFields(s, s.handles.snapshot, SNAPSHOT_SIZE);
  }

  lemma ReportFault(s: Scale, link: Link, maintenance: bool, p: Progress)
    requires p.handles == s.handles && p.verdict.Fine?
    ensures Report(link, FetchOffer(s, link, maintenance, p)).verdict ==
            if s.handles.report != 0 && s.handles.ack != 0 && !(link.secureReport && link.report) then Wrong(NotReported) else Fine
  {
  }

  lemma ControlFault(s: Scale, link: Link, p: Progress)
    requires p.handles == s.handles && p.verdict.Fine?
    ensures FetchControl(s, link, false, p).verdict ==
            if s.handles.control != 0 && !(link.secureControl && Answered(s, s.handles.control, link.control)) then Wrong(NoControl)
            else if s.handles.control != 0 && ControlOf(s) == None then Wrong(InvalidVersion)
            else Fine
  {
    ReadsFields(s, s.handles.control, CONTROL_SIZE);
  }

  // ------------------------------------------------------- what a fetch sends over the air

  datatype Mark = Finds | Reads(handle: nat) | Pairs | Writes(handle: nat)

  /** The exchanges of a trace without what came back. */
  function Marks(trace: seq<Op>): (marks: seq<Mark>)
    ensures |marks| == |trace|
  {
    if trace == [] then []
    else
      var last := trace[|trace| - 1];
      Marks(trace[..|trace| - 1]) +
      [match last
       case Discover => Finds
       case Read(h, _) => Reads(h)
       case Secure => Pairs
       case Write(h, _) => Writes(h)]
  }

  function Only(b: bool, marks: seq<Mark>): seq<Mark> { if b then marks else [] }

  /** The exchanges of a round over a clear link: each characteristic once, in order;
      `known` and `same` say that name and threshold need not be read again. */
  function Exchanges(h: Handles, cached: bool, known: bool, same: bool, maintenance: bool): seq<Mark> {
    Only(!cached, [Finds]) + [Reads(h.info), Reads(h.snapshot)] + Only(!known, [Reads(h.name)]) +
    Only(h.config != 0, [Reads(h.config)]) + Only(!same && h.touch != 0, [Reads(h.touch)]) +
    Only(maintenance && h.offer != 0, [Reads(h.offer)]) +
    Only(h.report != 0, [Pairs, Writes(h.report)]) + Only(h.control != 0, [Pairs, Reads(h.control)])
  }

  lemma {:induction false} MarksJoin(a: seq<Op>, b: seq<Op>)
    ensures Marks(a + b) == Marks(a) + Marks(b)
    decreases |b|
  {
    if b == [] {
      assert a + b == a;
    } else {
      MarksJoin(a, b[..|b| - 1]);
      assert (a + b)[..|a + b| - 1] == a + b[..|b| - 1];
    }
  }

  lemma OneMark(op: Op)
    ensures Marks([op]) == [match op
                            case Discover => Finds
                            case Read(h, _) => Reads(h)
                            case Secure => Pairs
                            case Write(h, _) => Writes(h)]
  {
    assert [op][..0] == [];
  }

  /** What a round that succeeds over a clear link has sent. A retained one makes no
      discovery, and reads the name and the threshold only if their revisions have
      moved on. */
  lemma ClearRoundSends(c: Cache, peer: Peer, maintenance: bool, s: Scale, cached: bool, st: State)
    requires cached ==> c.handles == s.handles
    ensures var p := Round(c, peer, maintenance, s, CLEAR, cached, st);
            var known := cached && ProfileOf(s) == c.profileRevision;
            var same := cached && (if ConfigOf(s).Some? then RevisionOf(s) else st.revision) == c.configRevision;
            p.verdict.Fine? ==> Marks(p.trace) == Exchanges(s.handles, cached, known, same, maintenance)
  {
    hide Compatible, Identify, FetchName, FetchConfig, FetchTouch, FetchOffer, Report, FetchControl,
      InfoOf, SnapshotOf, NameOf, ConfigOf, TouchOf, OfferOf, ControlOf, TextOf;
    Sizes(s);
    var p0 := Identify(c, peer, s, CLEAR, cached, st);
    IdentifyFacts(c, peer, s, CLEAR, cached, st);
    IdentifySends(c, peer, s, cached, st);
    if p0.verdict.Fine? {
      var p1 := FetchName(c, s, CLEAR, cached, p0);
      NameFacts(c, s, CLEAR, cached, p0);
      NameSends(c, s, cached, p0);
      if p1.verdict.Fine? {
        var p2 := FetchConfig(s, CLEAR, cached, p1);
        ConfigFacts(s, CLEAR, cached, p1);
        ConfigSends(s, cached, p1);
        if p2.verdict.Fine? {
          var p3 := FetchTouch(c, s, CLEAR, cached, p2);
          TouchFacts(c, s, CLEAR, cached, p2);
          TouchSends(c, s, cached, p2);
          if p3.verdict.Fine? {
            EndSends(s, maintenance, cached, p3);
          }
        }
      }
    }
  }

  lemma TwoMarks(a: Op, b: Op)
    ensures Marks([a, b]) == Marks([a]) + Marks([b])
  {
    MarksJoin([a], [b]);
    assert [a] + [b] == [a, b];
  }

  lemma IdentifySends(c: Cache, peer: Peer, s: Scale, cached: bool, st: State)
    ensures var p := Identify(c, peer, s, CLEAR, cached, st); var h := if cached then c.handles else s.handles;
            p.verdict.Fine? ==> Marks(p.trace) == Only(!cached, [Finds]) + [Reads(h.info), Reads(h.snapshot)]
  {
    hide CString, Compatible;
    var h := if cached then c.handles else s.handles;
    var info, snap := Long(Got(s, h.info, true), DEVICE_INFO_MAX), Short(Got(s, h.snapshot, true), SNAPSHOT_SIZE);
    OneMark(Discover);
    OneMark(Read(h.info, info));
    OneMark(Read(h.snapshot, snap));
    TwoMarks(Read(h.info, info), Read(h.snapshot, snap));
    MarksJoin([Discover], [Read(h.info, info), Read(h.snapshot, snap)]);
  }

  lemma NameSends(c: Cache, s: Scale, cached: bool, p: Progress)
    ensures var q := FetchName(c, s, CLEAR, cached, p); var known := cached && ProfileRevision(p.state) == c.profileRevision;
            Marks(q.trace) == Marks(p.trace) + Only(!known, [Reads(p.handles.name)])
  {
    hide CString;
    var got := Long(Got(s, p.handles.name, true), NAME_MAX);
    OneMark(Read(p.handles.name, got));
    MarksJoin(p.trace, [Read(p.handles.name, got)]);
  }

  lemma ConfigSends(s: Scale, cached: bool, p: Progress)
    ensures var q := FetchConfig(s, CLEAR, cached, p);
            Marks(q.trace) == Marks(p.trace) + Only(p.handles.config != 0, [Reads(p.handles.config)])
  {
    hide Configured;
    var got := Short(Got(s, p.handles.config, true), CONFIG_SIZE);
    OneMark(Read(p.handles.config, got));
    MarksJoin(p.trace, [Read(p.handles.config, got)]);
  }

  lemma TouchSends(c: Cache, s: Scale, cached: bool, p: Progress)
    ensures var q := FetchTouch(c, s, CLEAR, cached, p); var same := cached && p.state.revision == c.configRevision;
            Marks(q.trace) == Marks(p.trace) + Only(!same && p.handles.touch != 0, [Reads(p.handles.touch)])
  {
    var got := Short(Got(s, p.handles.touch, true), TOUCH_SIZE);
    OneMark(Read(p.handles.touch, got));
    MarksJoin(p.trace, [Read(p.handles.touch, got)]);
  }

  lemma OfferSends(s: Scale, maintenance: bool, p: Progress)
    ensures var q := FetchOffer(s, CLEAR, maintenance, p);
            Marks(q.trace) == Marks(p.trace) + Only(maintenance && p.handles.offer != 0, [Reads(p.handles.offer)])
            && q.handles == p.handles
  {
    var got := Long(Got(s, p.handles.offer, true), OFFER_SIZE);
    OneMark(Read(p.handles.offer, got));
    MarksJoin(p.trace, [Read(p.handles.offer, got)]);
  }

  lemma ReportSends(p: Progress)
    ensures var q := Report(CLEAR, p);
            Marks(q.trace) == Marks(p.trace) + Only(p.handles.report != 0, [Pairs, Writes(p.handles.report)]) && q.handles == p.handles
  {
    var write := Write(p.handles.report, true);
    OneMark(Secure);
    OneMark(write);
    MarksJoin(p.trace, [Secure]);
    MarksJoin(p.trace + [Secure], [write]);
  }

  lemma ControlSends(s: Scale, cached: bool, p: Progress)
    ensures var q := FetchControl(s, CLEAR, cached, p);
            Marks(q.trace) == Marks(p.trace) + Only(p.handles.control != 0, [Pairs, Reads(p.handles.control)])
  {
    hide Commanded;
    var got := Short(Got(s, p.handles.control, true), CONTROL_SIZE);
    OneMark(Secure);
    OneMark(Read(p.handles.control, got));
    TwoMarks(Secure, Read(p.handles.control, got));
    MarksJoin(p.trace, [Secure, Read(p.handles.control, got)]);
  }

  lemma EndSends(s: Scale, maintenance: bool, cached: bool, p: Progress)
    requires p.handles == s.handles
    ensures var q := Report(CLEAR, FetchOffer(s, CLEAR, maintenance, p)); var r := FetchControl(s, CLEAR, cached, q); var h := s.handles;
            Marks(r.trace) == Marks(p.trace) + Only(maintenance && h.offer != 0, [Reads(h.offer)]) +
                              Only(h.report != 0, [Pairs, Writes(h.report)]) + Only(h.control != 0, [Pairs, Reads(h.control)])
  {
    hide FetchOffer, Report, FetchControl;
    OfferSends(s, maintenance, p);
    ReportSends(FetchOffer(s, CLEAR, maintenance, p));
    ControlSends(s, cached, Report(CLEAR, FetchOffer(s, CLEAR, maintenance, p)));
  }
}
