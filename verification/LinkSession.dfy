/** The numbered, sealed frames of a session (controller_link.c) and the staged
    sending on top of them (connection_session.cpp). The cipher is an ideal box:
    a box opens only with the key, direction and number it was sealed with. */
module LinkSession {
  import opened Clock
  import opened Crc
  import opened HistoryRecord

  const MAX_PLAIN: nat := 2048
  const MAX_FRAME: nat := 2072
  const TAG_SIZE: nat := 16
  const LAST_NUMBER: uint32 := 0xFFFF_FFFF

  type Key = nat

  datatype Cipher = Sealed(key: Key, direction: nat, number: uint32, plain: seq<byte>) | Junk(bytes: seq<byte>)
  {
    function Size(): nat { if Sealed? then |plain| + TAG_SIZE else |bytes| }
  }

  datatype Wire = Wire(header: seq<byte>, cipher: Cipher)
  {
    function Size(): nat { |header| + cipher.Size() }
  }

  datatype Session = Session(key: Key, server: bool, tx: uint32, rx: uint32)
  {
    function Outgoing(): nat { if server then 1 else 2 }
    function Incoming(): nat { if server then 2 else 1 }
  }

  function Started(key: Key, server: bool): Session { Session(key, server, 0, 0) }

  function BigEndian(n: uint32): (b: seq<byte>)
    ensures |b| == 4
  {
    [n / 0x100_0000, n / 0x1_0000 % 0x100, n / 0x100 % 0x100, n % 0x100]
  }

  function Number(b: seq<byte>): uint32
    requires |b| >= 4
  {
    0x100_0000 * (b[0] as int) + 0x1_0000 * (b[1] as int) + 0x100 * (b[2] as int) + b[3] as int
  }

  lemma NumberRoundTrip(n: uint32)
    ensures Number(BigEndian(n)) == n
    ensures var b := BigEndian(n); ((b[0] as int * 256 + b[1] as int) * 256 + b[2] as int) * 256 + b[3] as int == n
  {
    var a, b, c := n / 0x100, n / 0x1_0000, n / 0x100_0000;
    assert n == 0x100 * a + n % 0x100;
    assert a == 0x100 * b + a % 0x100;
    assert b == 0x100 * c + b % 0x100;
  }

  // ---------------------------------------------------------------- seal and open

  /** The text must end within the buffer, and numbers never start over. */
  predicate Sealable(s: Session, plain: seq<byte>) { |plain| < MAX_PLAIN && s.tx < LAST_NUMBER }

  function Boxed(s: Session, plain: seq<byte>): Wire
    requires Sealable(s, plain)
  {
    Wire(BigEndian(s.tx + 1), Sealed(s.key, s.Outgoing(), s.tx + 1, plain))
  }

  /** What a frame opens to; None when it is refused. */
  function Opened(s: Session, w: Wire): Option<seq<byte>> {
    if w.Size() < 20 || w.Size() > MAX_FRAME || |w.header| != 4 then None
    else
      var n := Number(w.header);
      if n == 0 || n <= s.rx then None
      else if w.cipher.Sealed? && w.cipher.key == s.key && w.cipher.direction == s.Incoming() && w.cipher.number == n
              && |w.cipher.plain| < MAX_PLAIN
      then Some(w.cipher.plain)
      else None
  }

  function AfterOpen(s: Session, w: Wire): Session {
    if Opened(s, w).Some? then s.(rx := w.cipher.number) else s
  }

  /** The other side opens what was sealed if and only if it has not yet opened that
      number or a later one. */
  lemma OpensWhatWasSealed(s: Session, r: Session, plain: seq<byte>)
    requires Sealable(s, plain) && r.key == s.key && r.server != s.server
    ensures Opened(r, Boxed(s, plain)) == if r.rx <= s.tx then Some(plain) else None
  {
    hide BigEndian, Number;
    NumberRoundTrip(s.tx + 1);
  }

  /** Two sides started with one key: the first text of either carries number 1, and no
      number of the other side is refused at first. */
  lemma FreshSessionsTalk(key: Key, server: bool, plain: seq<byte>, later: Session)
    requires |plain| < 2048
    requires later.key == key && later.server == server && later.tx < 0xFFFF_FFFF
    ensures var s, r := Started(key, server), Started(key, !server);
            && Boxed(s, plain).header == [0, 0, 0, 1] && Opened(r, Boxed(s, plain)) == Some(plain)
            && Opened(r, Boxed(later, plain)) == Some(plain)
  {
    OpensWhatWasSealed(Started(key, server), Started(key, !server), plain);
    OpensWhatWasSealed(later, Started(key, !server), plain);
  }

  // ------------------------------------------------------------------ receiving

  function Received(r: Session, wires: seq<Wire>): Session {
    if wires == [] then r else AfterOpen(Received(r, wires[..|wires| - 1]), wires[|wires| - 1])
  }

  /** The plaintexts accepted from a series of frames, with their numbers. */
  function Accepted(r: Session, wires: seq<Wire>): seq<(uint32, seq<byte>)> {
    if wires == [] then []
    else
      var init, w := wires[..|wires| - 1], wires[|wires| - 1];
      var got := Opened(Received(r, init), w);
      if got.Some? then Accepted(r, init) + [(w.cipher.number, got.value)] else Accepted(r, init)
  }

  /** The boxes of this key and direction that reach the receiver are the peer's;
      everything else, headers included, may be anything at all. */
  predicate FromPeer(r: Session, wires: seq<Wire>, sent: seq<seq<byte>>) {
    forall i :: 0 <= i < |wires| && wires[i].cipher.Sealed? && wires[i].cipher.key == r.key &&
                wires[i].cipher.direction == r.Incoming() ==>
      1 <= wires[i].cipher.number <= |sent| && wires[i].cipher.plain == sent[wires[i].cipher.number - 1]
  }

  lemma OpenedFacts(s: Session, w: Wire)
    ensures Opened(s, w).Some? ==>
              && w.cipher.Sealed? && w.cipher.key == s.key && w.cipher.direction == s.Incoming()
              && w.cipher.number > s.rx && Opened(s, w).value == w.cipher.plain
              && |Opened(s, w).value| < 2048
  {
    hide Number;
  }

  /** A duplicate-free, in-order subsequence of `sent`, by number. */
  predicate Subsequence(got: seq<(uint32, seq<byte>)>, sent: seq<seq<byte>>) {
    && (forall i :: 0 <= i < |got| ==> 1 <= got[i].0 <= |sent| && got[i].1 == sent[got[i].0 - 1])
    && (forall i, j :: 0 <= i < j < |got| ==> got[i].0 < got[j].0)
  }

  predicate UpTo(got: seq<(uint32, seq<byte>)>, last: uint32) { forall i :: 0 <= i < |got| ==> got[i].0 <= last }

  lemma OneMore(got: seq<(uint32, seq<byte>)>, sent: seq<seq<byte>>, last: uint32, n: uint32, plain: seq<byte>)
    requires Subsequence(got, sent) && UpTo(got, last) && last < n <= |sent| && plain == sent[n - 1]
    ensures Subsequence(got + [(n, plain)], sent) && UpTo(got + [(n, plain)], n)
  {
  }

  /** Under any loss, repetition, reordering and forgery the accepted plaintexts are
      an in-order, duplicate-free subsequence of what the peer sealed. */
  lemma {:induction false} AcceptedInOrder(r: Session, wires: seq<Wire>, sent: seq<seq<byte>>)
    requires r.rx == 0 && FromPeer(r, wires, sent)
    ensures Subsequence(Accepted(r, wires), sent)
    ensures Received(r, wires) == r.(rx := Received(r, wires).rx) && UpTo(Accepted(r, wires), Received(r, wires).rx)
    decreases |wires|
  {
    hide Number, Opened, Subsequence, UpTo;
    if wires == [] {
      NoneYet(sent);
    } else {
      var init, w := wires[..|wires| - 1], wires[|wires| - 1];
      assert forall i :: 0 <= i < |init| ==> init[i] == wires[i];
      AcceptedInOrder(r, init, sent);
      OpenedFacts(Received(r, init), w);
      if Opened(Received(r, init), w).Some? {
        OneMore(Accepted(r, init), sent, Received(r, init).rx, w.cipher.number, w.cipher.plain);
      }
    }
  }

  lemma NoneYet(sent: seq<seq<byte>>)
    ensures Subsequence([], sent) && UpTo([], 0)
  {
  }

  /** The frames that seal `sent`, one after the other. */
  function AllBoxed(s: Session, sent: seq<seq<byte>>): seq<Wire>
    requires s.tx + |sent| <= LAST_NUMBER && forall i :: 0 <= i < |sent| ==> |sent[i]| < MAX_PLAIN
  {
    if sent == [] then []
    else
      var n := |sent| - 1;
      AllBoxed(s, sent[..n]) + [Boxed(s.(tx := s.tx + n), sent[n])]
  }

  /** Nothing lost, nothing reordered: everything arrives. */
  lemma {:induction false} AllArrive(s: Session, r: Session, sent: seq<seq<byte>>)
    requires s.tx + |sent| <= LAST_NUMBER && forall i :: 0 <= i < |sent| ==> |sent[i]| < MAX_PLAIN
    requires r.key == s.key && r.server != s.server && r.rx <= s.tx
    ensures var got := Accepted(r, AllBoxed(s, sent)); var end := Received(r, AllBoxed(s, sent));
            && |got| == |sent| && (forall i :: 0 <= i < |sent| ==> got[i] == (s.tx + i + 1, sent[i]))
            && end == r.(rx := if sent == [] then r.rx else s.tx + |sent|)
    decreases |sent|
  {
    hide BigEndian, Number, Opened, Boxed;
    if sent != [] {
      var n := |sent| - 1;
      AllArrive(s, r, sent[..n]);
      var wires := AllBoxed(s, sent);
      assert wires[..|wires| - 1] == AllBoxed(s, sent[..n]);
      OpensWhatWasSealed(s.(tx := s.tx + n), Received(r, AllBoxed(s, sent[..n])), sent[n]);
      BoxedNumber(s.(tx := s.tx + n), sent[n]);
    }
  }

  lemma BoxedNumber(s: Session, plain: seq<byte>)
    requires Sealable(s, plain)
    ensures Boxed(s, plain).cipher.number == s.tx + 1
  {
  }

  // -------------------------------------------------------------------- sending

  /** What the transport makes of a send. An incomplete one delivers nothing. */
  datatype Transport = NotConnected | Incomplete | Taken

  /** A send; `encrypts` is whether the cipher does its part. */
  datatype Attempt = Attempt(plain: seq<byte>, encrypts: bool, transport: Transport)

  predicate Sends(s: Session, a: Attempt) { Sealable(s, a.plain) && a.encrypts && a.transport.Taken? }

  function AfterSend(s: Session, a: Attempt): Session { if Sends(s, a) then s.(tx := s.tx + 1) else s }

  function AfterSends(s: Session, attempts: seq<Attempt>): Session {
    if attempts == [] then s else AfterSend(AfterSends(s, attempts[..|attempts| - 1]), attempts[|attempts| - 1])
  }

  /** The messages whose send reported success. */
  function Reported(s: Session, attempts: seq<Attempt>): seq<seq<byte>> {
    if attempts == [] then []
    else
      var init, a := attempts[..|attempts| - 1], attempts[|attempts| - 1];
      if Sends(AfterSends(s, init), a) then Reported(s, init) + [a.plain] else Reported(s, init)
  }

  /** The frames the transport has taken. */
  function Delivered(s: Session, attempts: seq<Attempt>): seq<Wire> {
    if attempts == [] then []
    else
      var init, a := attempts[..|attempts| - 1], attempts[|attempts| - 1];
      var before := AfterSends(s, init);
      if Sends(before, a) then Delivered(s, init) + [Boxed(before, a.plain)] else Delivered(s, init)
  }

  /** Whatever fails in between, the frames that go out are the reported messages
      sealed one after the other: numbered on without a gap, none twice. */
  lemma {:induction false} NumbersHaveNoGaps(s: Session, attempts: seq<Attempt>)
    ensures var sent := Reported(s, attempts);
            && (forall i :: 0 <= i < |sent| ==> |sent[i]| < MAX_PLAIN) && s.tx + |sent| <= LAST_NUMBER
            && AfterSends(s, attempts) == s.(tx := s.tx + |sent|)
            && Delivered(s, attempts) == AllBoxed(s, sent)
            && |Delivered(s, attempts)| == |sent|
            && (forall i :: 0 <= i < |sent| ==> Delivered(s, attempts)[i].cipher == Sealed(s.key, s.Outgoing(), s.tx + i + 1, sent[i]))
    decreases |attempts|
  {
    hide BigEndian, Number;
    if attempts != [] {
      var init, a := attempts[..|attempts| - 1], attempts[|attempts| - 1];
      NumbersHaveNoGaps(s, init);
      if Sends(AfterSends(s, init), a) {
        assert Reported(s, attempts)[..|Reported(s, attempts)| - 1] == Reported(s, init);
      }
    }
  }

  /** End to end: what the receiver accepts of a session is an in-order subsequence
      of the messages whose send reported success. */
  lemma {:induction false} AcceptedWereReported(s: Session, r: Session, attempts: seq<Attempt>, wires: seq<Wire>)
    requires s.tx == 0 && r.rx == 0 && r.key == s.key && r.server != s.server
    requires forall i :: 0 <= i < |wires| && wires[i].cipher.Sealed? && wires[i].cipher.key == r.key &&
                         wires[i].cipher.direction == r.Incoming() ==>
               exists k :: 0 <= k < |Delivered(s, attempts)| && Delivered(s, attempts)[k].cipher == wires[i].cipher
    ensures Subsequence(Accepted(r, wires), Reported(s, attempts))
  {
    hide BigEndian, Number, Accepted, Subsequence, AllBoxed;
    NumbersHaveNoGaps(s, attempts);
    var sent := Reported(s, attempts);
    forall i | 0 <= i < |wires| && wires[i].cipher.Sealed? && wires[i].cipher.key == r.key && wires[i].cipher.direction == r.Incoming()
      ensures 1 <= wires[i].cipher.number <= |sent| && wires[i].cipher.plain == sent[wires[i].cipher.number - 1]
    {
      var k :| 0 <= k < |Delivered(s, attempts)| && Delivered(s, attempts)[k].cipher == wires[i].cipher;
      BoxAt(s, sent, k);
    }
    AcceptedInOrder(r, wires, sent);
  }

  lemma {:induction false} BoxAt(s: Session, sent: seq<seq<byte>>, k: nat)
    requires s.tx + |sent| <= LAST_NUMBER && (forall i :: 0 <= i < |sent| ==> |sent[i]| < MAX_PLAIN) && k < |sent|
    ensures |AllBoxed(s, sent)| == |sent|
    ensures AllBoxed(s, sent)[k].cipher == Sealed(s.key, s.Outgoing(), s.tx + k + 1, sent[k])
    decreases |sent|
  {
    var n := |sent| - 1;
    if n > 0 {
      BoxAt(s, sent[..n], if k < n then k else 0);
    }
  }

  // ------------------------------------------------------------------- the objects

  /** `cl_session_t`, and the connection that sends through it. */
  class Connection {
    var key: Key
    var server: bool
    var tx: uint32
    var rx: uint32
    var trafficReady: bool
    var retry: bool

    ghost function View(): Session
      reads this
    {
      Session(key, server, tx, rx)
    }

    constructor ()
      ensures View() == Session(0, false, 0, 0) && !trafficReady
    {
      key, server, tx, rx, trafficReady, retry := 0, false, 0, 0, false, true;
    }

    /** `cl_start`; the key depends on fresh challenges of both sides. When it cannot
        be computed there is no traffic. */
    method Start(sessionKey: Key, asServer: bool, hashes: bool)
      modifies this
      ensures View() == Started(if hashes then sessionKey else old(key), asServer)
      ensures trafficReady == hashes && retry == old(retry)
    {
      if hashes {
        key := sessionKey;
      }
      server, tx, rx, trafficReady := asServer, 0, 0, hashes;
    }

    /** `cl_seal` on a copy of the session: the new number comes back staged. */
    method SealStaged(plain: seq<byte>, encrypts: bool) returns (sealed: Option<Wire>, staged: uint32)
      ensures if Sealable(View(), plain) && encrypts then sealed == Some(Boxed(View(), plain)) && staged == tx + 1
              else sealed == None && staged == tx
    {
      if |plain| >= MAX_PLAIN || tx == LAST_NUMBER {
        return None, tx;
      }
      var number := tx + 1;
      if !encrypts {
        return None, tx;
      }
      return Some(Wire(BigEndian(number), Sealed(key, if server then 1 else 2, number, plain))), number;
    }

    method Open(w: Wire) returns (plain: Option<seq<byte>>)
      modifies this`rx
      ensures plain == Opened(old(View()), w) && View() == AfterOpen(old(View()), w)
    {
      if w.Size() < 20 || w.Size() > MAX_FRAME || |w.header| != 4 {
        return None;
      }
      var number := Number(w.header);
      if number == 0 || number <= rx {
        return None;
      }
      if !w.cipher.Sealed? || w.cipher.key != key || w.cipher.direction != (if server then 2 else 1)
         || w.cipher.number != number || |w.cipher.plain| >= MAX_PLAIN {
        return None;
      }
      rx := number;
      return Some(w.cipher.plain);
    }

    /** The number is committed only after the whole frame was taken. */
    method SendSecure(plain: seq<byte>, encrypts: bool, transport: Transport) returns (ok: bool, out: Option<Wire>)
      modifies this`tx, this`trafficReady, this`retry
      ensures ok == Sends(old(View()), Attempt(plain, encrypts, transport))
      ensures View() == AfterSend(old(View()), Attempt(plain, encrypts, transport))
      ensures out == if ok then Some(Boxed(old(View()), plain)) else None
      ensures if Sealable(old(View()), plain) && encrypts && transport.Incomplete? then !trafficReady && retry
              else trafficReady == old(trafficReady) && retry == old(retry)
    {
      var sealed, staged := SealStaged(plain, encrypts);
      if sealed == None || transport.NotConnected? {
        return false, None;
      }
      if transport.Incomplete? {
        trafficReady, retry := false, true;
        return false, None;
      }
      tx := staged;
      return true, sealed;
    }
  }
}
