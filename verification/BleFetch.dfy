/** Reading a scale over BLE (ble_client.c): a fetch either discovers the scale's
    GATT handles or trusts the ones retained from the last good fetch, and then
    rediscovers at most once. */
module BleFetch {
  import opened Clock
  import opened Crc
  import opened HistoryRecord

  const PROTOCOL: byte := 1
  const DEVICE_INFO_MAX: nat := 96
  const NAME_MAX: nat := 32
  const SNAPSHOT_SIZE: nat := 20
  const CONFIG_SIZE: nat := 6
  const TOUCH_SIZE: nat := 3
  const CONTROL_SIZE: nat := 4
  const OFFER_SIZE: nat := 139

  type Text = seq<byte>

  datatype Peer = Peer(scaleId: Text, addressType: byte, address: seq<byte>)

  /** Value handles; 0 means the scale does not have the characteristic. */
  datatype Handles = Handles(
    snapshot: nat, name: nat, info: nat, config: nat, offer: nat, bundle: nat,
    control: nat, report: nat, touch: nat, ack: nat)

  /** The retained cache; `valid` is its magic word. */
  datatype Cache = Cache(
    valid: bool, peer: Peer, handles: Handles, identity: Text, name: Text,
    profileRevision: byte, configRevision: byte, touch: byte)

  /** The scale: its attribute table and where each characteristic is in it. */
  datatype Scale = Scale(handles: Handles, values: map<nat, seq<byte>>)

  /** Which exchanges of one round get through. */
  datatype Link = Link(
    discover: bool, info: bool, snapshot: bool, name: bool, config: bool, touch: bool, offer: bool,
    secureReport: bool, report: bool, secureControl: bool, control: bool)

  const CLEAR: Link := Link(true, true, true, true, true, true, true, true, true, true, true)

  /** What the caller gets; the snapshot's 20 bytes are kept undivided. */
  datatype State = State(
    deviceInfo: Text, name: Text, snapshot: seq<byte>,
    layout: byte, revision: byte, flags: byte, servingX100: int, touch: byte,
    controlFlags: byte, command: int, ackSupported: bool, offer: Option<seq<byte>>)

  const BLANK: State := State([], [], [], 1, 0, 0, 1600, 0, 0, 0, false, None)

  datatype Error =
    | NoConnection | NotFound | ReadFailed | InvalidVersion | NotReported | NoControl
    | InvalidArgument | Insecure | WriteFailed

  datatype Verdict = Fine | Wrong(error: Error) | Again

  datatype Op = Discover | Read(handle: nat, got: Option<seq<byte>>) | Secure | Write(handle: nat, ok: bool)

  datatype Progress = Progress(state: State, handles: Handles, trace: seq<Op>, verdict: Verdict)

  // ---------------------------------------------------------------- small reads

  /** A C string ends at its first zero. */
  function CString(b: seq<byte>): Text {
    if b == [] || b[0] == 0 then [] else [b[0]] + CString(b[1..])
  }

  function Got(s: Scale, handle: nat, ok: bool): Option<seq<byte>> {
    if ok && handle in s.values then Some(s.values[handle]) else None
  }

  /** `read_value` cuts a longer value off; `read_long_value` refuses it. */
  function Short(got: Option<seq<byte>>, size: nat): Option<seq<byte>> {
    if got.Some? && |got.value| > size then Some(got.value[..size]) else got
  }

  function Long(got: Option<seq<byte>>, size: nat): Option<seq<byte>> {
    if got.Some? && |got.value| > size then None else got
  }

  /** "protocol=1;id=" */
  const ID_PREFIX: Text := [112, 114, 111, 116, 111, 99, 111, 108, 61, 49, 59, 105, 100, 61]

  /** `ble_client_state_is_compatible` for a state of protocol version 1. */
  predicate Compatible(peer: Peer, info: Text) { ID_PREFIX + peer.scaleId + [59] <= info }

  predicate Hit(c: Cache, peer: Peer) {
    c.valid && c.peer.scaleId == peer.scaleId && c.peer.addressType == peer.addressType && c.peer.address == peer.address
  }

  /** The characteristics without which discovery reports failure. */
  predicate Discovered(s: Scale, link: Link) {
    link.discover && s.handles.snapshot != 0 && s.handles.name != 0 && s.handles.info != 0
  }

  predicate Versioned(got: Option<seq<byte>>, size: nat) {
    got.Some? && |got.value| == size && size > 0 && got.value[0] == PROTOCOL
  }

  // -------------------------------------------------------------------- one round

  function Trouble(cached: bool, error: Error): Verdict { if cached then Again else Wrong(error) }

  /** Handles, then identity, then snapshot: before anything else is trusted. */
  function Identify(c: Cache, peer: Peer, s: Scale, link: Link, cached: bool, st: State): Progress {
    var h := if cached then c.handles else s.handles;
    var found := if cached then [] else [Discover];
    if !cached && !Discovered(s, link) then Progress(st, h, found, Wrong(NotFound))
    else
      var info := Long(Got(s, h.info, link.info), DEVICE_INFO_MAX);
      var text := if info.Some? then CString(info.value) else [];
      var st := st.(deviceInfo := text);
      var trace := found + [Read(h.info, info)];
      if info == None then Progress(st, h, trace, Trouble(cached, ReadFailed))
      else if !Compatible(peer, text) || (cached && text != c.identity) then
        Progress(st, h, trace, Trouble(cached, InvalidVersion))
      else
        var snap := Short(Got(s, h.snapshot, link.snapshot), SNAPSHOT_SIZE);
        var trace := trace + [Read(h.snapshot, snap)];
        if snap == None then Progress(st, h, trace, Trouble(cached, ReadFailed))
        else if !Versioned(snap, SNAPSHOT_SIZE) then Progress(st, h, trace, Trouble(cached, InvalidVersion))
        else Progress(st.(snapshot := snap.value), h, trace, Fine)
  }

  function ProfileRevision(st: State): byte { if |st.snapshot| == SNAPSHOT_SIZE then st.snapshot[19] else 0 }

  function FetchName(c: Cache, s: Scale, link: Link, cached: bool, p: Progress): Progress {
    if cached && ProfileRevision(p.state) == c.profileRevision then p.(state := p.state.(name := c.name))
    else
      var name := Long(Got(s, p.handles.name, link.name), NAME_MAX);
      p.(state := p.state.(name := if name.Some? then CString(name.value) else []),
         trace := p.trace + [Read(p.handles.name, name)],
         verdict := if name.Some? then Fine else Wrong(ReadFailed))
  }

  function Configured(st: State, b: seq<byte>): State
    requires |b| == CONFIG_SIZE
  {
    var serving := b[4] as int + 0x100 * (b[5] as int);
    st.(layout := b[1], revision := b[2], flags := b[3], servingX100 := if serving > 0 then serving else st.servingX100)
  }

  function FetchConfig(s: Scale, link: Link, cached: bool, p: Progress): Progress {
    if p.handles.config == 0 then p
    else
      var got := Short(Got(s, p.handles.config, link.config), CONFIG_SIZE);
      var p := p.(trace := p.trace + [Read(p.handles.config, got)]);
      if Versioned(got, CONFIG_SIZE) then p.(state := Configured(p.state, got.value))
      else if cached then p.(verdict := Again)
      else p
  }

  function FetchTouch(c: Cache, s: Scale, link: Link, cached: bool, p: Progress): Progress {
    if cached && p.state.revision == c.configRevision then p.(state := p.state.(touch := c.touch))
    else if p.handles.touch == 0 then p
    else
      var got := Short(Got(s, p.handles.touch, link.touch), TOUCH_SIZE);
      var p := p.(trace := p.trace + [Read(p.handles.touch, got)]);
      if Versioned(got, TOUCH_SIZE) then p.(state := p.state.(touch := got.value[1]))
      else if cached then p.(verdict := Again)
      else p
  }

  function FetchOffer(s: Scale, link: Link, maintenance: bool, p: Progress): Progress {
    if !maintenance || p.handles.offer == 0 then p
    else
      var got := Long(Got(s, p.handles.offer, link.offer), OFFER_SIZE);
      var p := p.(trace := p.trace + [Read(p.handles.offer, got)]);
      if Versioned(got, OFFER_SIZE) then p.(state := p.state.(offer := got)) else p
  }

  /** The display reports itself before it reads a command; with an acknowledging
      scale a failed report ends the fetch. */
  function Report(link: Link, p: Progress): Progress {
    if p.handles.report == 0 then p
    else
      var ok := link.secureReport && link.report;
      var trace := p.trace + [Secure];
      p.(trace := if link.secureReport then trace + [Write(p.handles.report, ok)] else trace,
         verdict := if !ok && p.handles.ack != 0 then Wrong(NotReported) else p.verdict)
  }

  function Commanded(st: State, b: seq<byte>, ack: nat): State
    requires |b| == CONTROL_SIZE
  {
    var command := b[2] as int + 0x100 * (b[3] as int);
    st.(controlFlags := b[1], command := command, ackSupported := ack != 0 && command != 0)
  }

  function FetchControl(s: Scale, link: Link, cached: bool, p: Progress): Progress {
    if p.handles.control == 0 then p
    else if !link.secureControl then p.(trace := p.trace + [Secure], verdict := Trouble(cached, NoControl))
    else
      var got := Short(Got(s, p.handles.control, link.control), CONTROL_SIZE);
      var p := p.(trace := p.trace + [Secure, Read(p.handles.control, got)]);
      if Versioned(got, CONTROL_SIZE) then p.(state := Commanded(p.state, got.value, p.handles.ack))
      else p.(verdict := Trouble(cached, if got == None then NoControl else InvalidVersion))
  }

  /** One pass from the handles to the control word. */
  function Round(c: Cache, peer: Peer, maintenance: bool, s: Scale, link: Link, cached: bool, st: State): Progress {
    var p := Identify(c, peer, s, link, cached, st);
    if !p.verdict.Fine? then p else
    var p := FetchName(c, s, link, cached, p);
    if !p.verdict.Fine? then p else
    var p := FetchConfig(s, link, cached, p);
    if !p.verdict.Fine? then p else
    var p := FetchTouch(c, s, link, cached, p);
    if !p.verdict.Fine? then p else
    var p := Report(link, FetchOffer(s, link, maintenance, p));
    if !p.verdict.Fine? then p else FetchControl(s, link, cached, p)
  }

  // ------------------------------------------------------------------- whole call

  datatype Result = Result(cache: Cache, state: State, trace: seq<Op>, error: Option<Error>)

  function CacheFrom(peer: Peer, p: Progress): Cache {
    Cache(true, peer, p.handles, p.state.deviceInfo, p.state.name, ProfileRevision(p.state), p.state.revision, p.state.touch)
  }

  function Finish(c: Cache, peer: Peer, p: Progress, before: seq<Op>): Result {
    match p.verdict
    case Fine =>
      Result(if Compatible(peer, p.state.deviceInfo) then CacheFrom(peer, p) else c, p.state, before + p.trace, None)
    case Wrong(e) => Result(c.(valid := false), p.state, before + p.trace, Some(e))
    case Again => Result(c.(valid := false), p.state, before + p.trace, Some(InvalidVersion))
  }

  /** `ble_client_fetch_mode` once connected; `links` are the rounds' fates. */
  function Fetch(c: Cache, peer: Peer, maintenance: bool, s: Scale, first: Link, second: Link): Result {
    var cached := !maintenance && Hit(c, peer);
    var p := Round(c, peer, maintenance, s, first, cached, BLANK);
    if p.verdict != Again then Finish(c, peer, p, [])
    else
      var stale := c.(valid := false);
      Finish(stale, peer, Round(stale, peer, maintenance, s, second, false, p.state), p.trace)
  }

  /** The scale once a threshold has been written to it. */
  function WithThreshold(s: Scale, percent: int): Scale
    requires 1 <= percent <= 50
  {
    s.(values := s.values[s.handles.touch := [PROTOCOL, percent, 0]])
  }

  class Client {
    var cache: Cache

    constructor ()
      ensures !cache.valid
    {
      cache := Cache(false, Peer([], 0, []), Handles(0, 0, 0, 0, 0, 0, 0, 0, 0, 0), [], [], 0, 0, 0);
    }

    /** The loop is the source's jump back to discovery; its second turn runs with
        `cached` off, so there is no third. */
    method FetchMode(peer: Peer, maintenance: bool, s: Scale, connects: bool, first: Link, second: Link)
      returns (error: Option<Error>, state: State, trace: seq<Op>)
      modifies this
      ensures !connects ==> error == Some(NoConnection) && trace == [] && cache == old(cache)
      ensures connects ==> Result(cache, state, trace, error) == Fetch(old(cache), peer, maintenance, s, first, second)
    {
      hide Round, Finish, Compatible;
      state, trace := BLANK, [];
      if !connects {
        return Some(NoConnection), state, trace;
      }
      var cached, rediscovered := !maintenance && Hit(cache, peer), false;
      ghost var cached0 := cached;
      var p := Round(cache, peer, maintenance, s, first, cached, state);
      while p.verdict == Again && cached && !rediscovered
        invariant rediscovered ==> !cached
        invariant !rediscovered ==> trace == [] && cache == old(cache) && cached == cached0
        invariant !rediscovered ==> p == Round(cache, peer, maintenance, s, first, cached, BLANK)
        invariant rediscovered ==>
                    var q := Round(old(cache), peer, maintenance, s, first, cached0, BLANK);
                    && q.verdict == Again && trace == q.trace && cache == old(cache).(valid := false)
                    && p == Round(cache, peer, maintenance, s, second, false, q.state)
        decreases !rediscovered
      {
        cached, rediscovered := false, true;
        cache := cache.(valid := false);
        trace := trace + p.trace;
        p := Round(cache, peer, maintenance, s, second, cached, p.state);
      }
      if rediscovered {
        ghost var q := Round(old(cache), peer, maintenance, s, first, cached0, BLANK);
        OnlyCachedAsksAgain(cache, peer, maintenance, s, second, false, q.state);
      } else {
        OnlyCachedAsksAgain(cache, peer, maintenance, s, first, cached, BLANK);
      }
      var r := Finish(cache, peer, p, trace);
      cache, state, trace, error := r.cache, r.state, r.trace, r.error;
    }

    /** `ble_client_save_touch_threshold`: once stored, the threshold is on the scale
        and no peer finds its cache any more, so the next fetch discovers anew; an
        attempt that fails leaves both as they were. */
    method SaveThreshold(s: Scale, percent: int, connects: bool, secures: bool, link: Link, writes: bool)
      returns (error: Option<Error>, after: Scale)
      modifies this
      ensures error == None <==> 1 <= percent <= 50 && connects && secures && Discovered(s, link) && s.handles.touch != 0 && writes
      ensures if error == None then after == WithThreshold(s, percent) && forall peer :: !Hit(cache, peer)
              else after == s && cache == old(cache)
      ensures error == None ==> s.handles.touch in after.values && after.values[s.handles.touch] == [1, percent, 0]
    {
      after := s;
      if percent < 1 || percent > 50 {
        return Some(InvalidArgument), s;
      }
      if !connects {
        return Some(NoConnection), s;
      }
      if !secures {
        return Some(Insecure), s;
      }
      if !Discovered(s, link) || s.handles.touch == 0 {
        return Some(NotFound), s;
      }
      if !writes {
        return Some(WriteFailed), s;
      }
      cache := cache.(valid := false);
      return None, WithThreshold(s, percent);
    }
  }

  lemma OnlyCachedAsksAgain(c: Cache, peer: Peer, maintenance: bool, s: Scale, link: Link, cached: bool, st: State)
    ensures !cached ==> Round(c, peer, maintenance, s, link, cached, st).verdict != Again
  {
  }
}
