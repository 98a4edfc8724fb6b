/** Putting WebSocket messages together from their fragments: the data branch of
    `socket_event` in connection_transport.cpp. */
module LinkAssembly {
  import opened Crc
  import opened HistoryRecord

  const MAX_FRAME: nat := 2072

  /** What the WebSocket client hands over: a piece of a message of `total` bytes. */
  datatype Fragment = Fragment(opcode: int, total: int, offset: int, data: seq<byte>)

  datatype Assembly = Assembly(kind: int, bytes: seq<byte>)
  {
    predicate Valid() { |bytes| <= MAX_FRAME }
  }

  predicate IsData(f: Fragment) { f.opcode == 1 || f.opcode == 2 }

  /** A first piece starts the buffer anew, whatever becomes of it. */
  function Begun(a: Assembly, f: Fragment): Assembly {
    if f.offset == 0 then Assembly(if f.opcode == 1 then 3 else 4, []) else a
  }

  predicate Fits(a: Assembly, f: Fragment) {
    f.total <= MAX_FRAME && f.offset == |a.bytes| && |a.bytes| + |f.data| <= MAX_FRAME
  }

  function Taken(a: Assembly, f: Fragment): Assembly {
    if !IsData(f) then a
    else
      var b := Begun(a, f);
      if Fits(b, f) then b.(bytes := b.bytes + f.data) else b
  }

  /** The message is complete and goes into the frame queue. */
  predicate Completes(a: Assembly, f: Fragment) {
    IsData(f) && Fits(Begun(a, f), f) && |Begun(a, f).bytes| + |f.data| == f.total
  }

  /** The buffer after a series of events, and the frames it has queued. */
  function After(a: Assembly, fs: seq<Fragment>): Assembly {
    if fs == [] then a else Taken(After(a, fs[..|fs| - 1]), fs[|fs| - 1])
  }

  function Queued(a: Assembly, fs: seq<Fragment>): seq<Assembly> {
    if fs == [] then []
    else
      var before, f := After(a, fs[..|fs| - 1]), fs[|fs| - 1];
      if Completes(before, f) then Queued(a, fs[..|fs| - 1]) + [Taken(before, f)] else Queued(a, fs[..|fs| - 1])
  }

  class Assembler {
    const buffer: array<byte>
    var length: nat
    var kind: int

    ghost predicate Valid()
      reads this
    {
      buffer.Length == MAX_FRAME + 1 && length <= MAX_FRAME
    }

    ghost function View(): Assembly
      reads this, buffer
      requires Valid()
    {
      Assembly(kind, buffer[..length])
    }

    constructor ()
      ensures Valid() && fresh(buffer) && View() == Assembly(0, [])
    {
      buffer := new byte[MAX_FRAME + 1];
      length, kind := 0, 0;
    }

    /** What a lost connection does to the buffer. */
    method Clear()
      requires Valid()
      modifies this`length, this`kind
      ensures Valid() && View() == Assembly(0, [])
    {
      length, kind := 0, 0;
    }

    /** `complete` is the frame offered to the queue. */
    method OnData(f: Fragment) returns (complete: Option<Assembly>)
      requires Valid()
      modifies this`length, this`kind, buffer
      ensures Valid() && View() == Taken(old(View()), f)
      ensures complete == if Completes(old(View()), f) then Some(View()) else None
    {
      if f.opcode != 1 && f.opcode != 2 {
        return None;
      }
      if f.offset == 0 {
        length, kind := 0, if f.opcode == 1 then 3 else 4;
      }
      ghost var begun := View();
      assert begun == Begun(old(View()), f);
      if f.total > MAX_FRAME || f.offset < 0 || f.offset != length || length + |f.data| > MAX_FRAME {
        return None;
      }
      forall i | 0 <= i < |f.data| {
        buffer[length + i] := f.data[i];
      }
      length := length + |f.data|;
      assert buffer[..length] == begun.bytes + f.data;
      return if length == f.total then Some(Assembly(kind, buffer[..length])) else None;
    }
  }

  // ------------------------------------------------------------------- messages

  /** The first `n` of `fs` cut `message` into consecutive pieces, control frames
      apart. Pieces may be empty. */
  predicate Cuts(fs: seq<Fragment>, message: seq<byte>, opcode: int, n: nat)
    requires n <= |fs|
    decreases n
  {
    if n == 0 then message == []
    else
      var f := fs[n - 1];
      if !IsData(f) then Cuts(fs, message, opcode, n - 1)
      else
        && f.opcode == opcode && |f.data| <= |message| && f.offset == |message| - |f.data|
        && f.data == message[f.offset..] && Cuts(fs, message[..f.offset], opcode, n - 1)
  }

  predicate Announces(fs: seq<Fragment>, total: int) { forall i :: 0 <= i < |fs| && IsData(fs[i]) ==> fs[i].total == total }

  predicate HasData(fs: seq<Fragment>) { exists i :: 0 <= i < |fs| && IsData(fs[i]) }

  /** How many pieces end where the message ends. */
  function Endings(fs: seq<Fragment>, total: int): nat {
    if fs == [] then 0
    else
      var f := fs[|fs| - 1];
      Endings(fs[..|fs| - 1], total) + (if IsData(f) && f.offset + |f.data| == total then 1 else 0)
  }

  function Repeated(a: Assembly, n: nat): (s: seq<Assembly>)
    ensures |s| == n && forall i :: 0 <= i < n ==> s[i] == a
  {
    if n == 0 then [] else Repeated(a, n - 1) + [a]
  }

  function Kind(opcode: int): int { if opcode == 1 then 3 else 4 }

  lemma OnePiece(b: Assembly, f: Fragment, prefix: seq<byte>, total: nat, opcode: int)
    requires (opcode == 1 || opcode == 2) && f.opcode == opcode && f.total == total <= MAX_FRAME
    requires f.offset == |prefix| && |prefix| + |f.data| <= total && (prefix != [] ==> b == Assembly(Kind(opcode), prefix))
    ensures Taken(b, f) == Assembly(Kind(opcode), prefix + f.data)
    ensures Completes(b, f) <==> |prefix| + |f.data| == total
  {
  }

  lemma {:induction false} PiecesAddUp(a: Assembly, fs: seq<Fragment>, message: seq<byte>, whole: seq<byte>, opcode: int,
                                       n: nat)
    requires n <= |fs| && Cuts(fs, message, opcode, n) && Announces(fs, |whole|) && message <= whole
    requires |whole| <= MAX_FRAME && (opcode == 1 || opcode == 2)
    ensures After(a, fs[..n]) == if HasData(fs[..n]) then Assembly(Kind(opcode), message) else a
    ensures message != [] ==> HasData(fs[..n])
    ensures Queued(a, fs[..n]) == Repeated(Assembly(Kind(opcode), whole), Endings(fs[..n], |whole|))
    decreases n
  {
    hide Taken, Completes, HasData, Kind, IsData, After, Queued, Endings;
    if n == 0 {
      NoData(a, fs, |whole|);
    } else {
      var f := fs[n - 1];
      OneMore(a, fs, |whole|, n);
      DataSoFar(fs, n);
      if IsData(f) {
        var prefix := message[..f.offset];
        PiecesAddUp(a, fs, prefix, whole, opcode, n - 1);
        OnePiece(After(a, fs[..n - 1]), f, prefix, |whole|, opcode);
        assert message == prefix + f.data;
        assert |message| == |whole| ==> message == whole;
      } else {
        PiecesAddUp(a, fs, message, whole, opcode, n - 1);
        ControlFrame(After(a, fs[..n - 1]), f);
      }
    }
  }

  lemma NoData(a: Assembly, fs: seq<Fragment>, total: int)
    ensures !HasData(fs[..0]) && After(a, fs[..0]) == a && Queued(a, fs[..0]) == [] && Endings(fs[..0], total) == 0
  {
  }

  lemma OneMore(a: Assembly, fs: seq<Fragment>, total: int, n: nat)
    requires 0 < n <= |fs|
    ensures var f, before, queued := fs[n - 1], After(a, fs[..n - 1]), Queued(a, fs[..n - 1]);
            && After(a, fs[..n]) == Taken(before, f)
            && Queued(a, fs[..n]) == (if Completes(before, f) then queued + [Taken(before, f)] else queued)
            && Endings(fs[..n], total) ==
               Endings(fs[..n - 1], total) + if IsData(f) && f.offset + |f.data| == total then 1 else 0
  {
    assert fs[..n][..n - 1] == fs[..n - 1];
  }

  lemma ControlFrame(b: Assembly, f: Fragment)
    requires !IsData(f)
    ensures Taken(b, f) == b && !Completes(b, f)
  {
  }

  lemma DataSoFar(fs: seq<Fragment>, n: nat)
    requires 0 < n <= |fs|
    ensures HasData(fs[..n]) <==> HasData(fs[..n - 1]) || IsData(fs[n - 1])
  {
    assert forall i :: 0 <= i < n - 1 ==> fs[..n][i] == fs[..n - 1][i];
    assert fs[..n][n - 1] == fs[n - 1];
  }

  /** However a message is cut into pieces, empty ones too, whatever control frames
      come between and whatever was in the buffer: a frame is queued for each piece
      that ends where the message ends, and every one is the message. */
  lemma {:induction false} FramesQueued(a: Assembly, fs: seq<Fragment>, message: seq<byte>, opcode: int)
    requires |message| <= MAX_FRAME && (opcode == 1 || opcode == 2)
    requires Cuts(fs, message, opcode, |fs|) && Announces(fs, |message|)
    ensures Queued(a, fs) == Repeated(Assembly(Kind(opcode), message), Endings(fs, |message|))
  {
    assert fs[..|fs|] == fs;
    PiecesAddUp(a, fs, message, message, opcode, |fs|);
  }

  predicate EmptyAt(f: Fragment, at: int) { IsData(f) && f.data == [] && f.offset == at }

  lemma {:induction false} OneEnding(fs: seq<Fragment>, message: seq<byte>, total: int, opcode: int, n: nat)
    requires n <= |fs| && Cuts(fs, message, opcode, n) && |message| <= total && total > 0
    ensures |message| < total ==> Endings(fs[..n], total) == 0
    ensures |message| == total ==> Endings(fs[..n], total) >= 1
    ensures |message| == total ==> (Endings(fs[..n], total) == 1 <==> forall i :: 0 <= i < n ==> !EmptyAt(fs[i], total))
    ensures |message| < total ==> forall i :: 0 <= i < n ==> !EmptyAt(fs[i], total)
    decreases n
  {
    if n > 0 {
      var f := fs[n - 1];
      assert fs[..n][..n - 1] == fs[..n - 1] && fs[..n][n - 1] == f;
      OneEnding(fs, if IsData(f) then message[..f.offset] else message, total, opcode, n - 1);
    }
  }

  /** A message that is not empty is queued exactly once, and as it was sent, if and
      only if no empty piece comes at its end. */
  lemma {:induction false} MessageComesThroughOnce(a: Assembly, fs: seq<Fragment>, message: seq<byte>, opcode: int)
    requires 0 < |message| <= MAX_FRAME && (opcode == 1 || opcode == 2)
    requires Cuts(fs, message, opcode, |fs|) && Announces(fs, |message|)
    ensures Queued(a, fs) == [Assembly(Kind(opcode), message)] <==> forall i :: 0 <= i < |fs| ==> !EmptyAt(fs[i], |message|)
    ensures |Queued(a, fs)| >= 1
  {
    assert fs[..|fs|] == fs;
    FramesQueued(a, fs, message, opcode);
    OneEnding(fs, message, |message|, opcode, |fs|);
  }

  /** The buffer never grows beyond a frame. */
  lemma {:induction false} NeverOverflows(a: Assembly, fs: seq<Fragment>)
    requires a.Valid()
    ensures After(a, fs).Valid()
    decreases |fs|
  {
    if fs != [] {
      NeverOverflows(a, fs[..|fs| - 1]);
    }
  }

  /** Later pieces of one message, in order, none of them the first. */
  predicate Later(fs: seq<Fragment>, total: int) {
    && (forall i :: 0 <= i < |fs| ==> IsData(fs[i]) && fs[i].offset > 0 && |fs[i].data| > 0 && fs[i].total == total <= MAX_FRAME)
    && (forall i :: 0 <= i < |fs| ==> fs[i].offset + |fs[i].data| <= total)
    && (forall i, j :: 0 <= i < j < |fs| ==> fs[i].offset + |fs[i].data| <= fs[j].offset)
  }

  lemma {:induction false} MissedPieces(a: Assembly, fs: seq<Fragment>, total: int)
    requires Later(fs, total) && forall i :: 0 <= i < |fs| ==> fs[i].offset != |a.bytes|
    ensures After(a, fs) == a && Queued(a, fs) == []
    decreases |fs|
  {
    if fs != [] {
      var init := fs[..|fs| - 1];
      assert forall i :: 0 <= i < |init| ==> init[i] == fs[i];
      MissedPieces(a, init, total);
    }
  }

  /** After a gap in the middle of a message all of the rest is dropped: the buffer
      stays as it is and nothing is queued until a message starts. */
  lemma {:induction false} GapDropsTheRest(a: Assembly, fs: seq<Fragment>, total: int)
    requires Later(fs, total) && fs != [] && fs[0].offset > |a.bytes|
    ensures After(a, fs) == a && Queued(a, fs) == []
  {
    forall i | 0 <= i < |fs|
      ensures fs[i].offset != |a.bytes|
    {
      assert i > 0 ==> fs[0].offset + |fs[0].data| <= fs[i].offset;
    }
    MissedPieces(a, fs, total);
  }

  /** Pieces of a message whose beginning was missed are all dropped if and only if
      none of them starts where the buffer ends; one that does is joined to what is
      left of an earlier message. */
  lemma {:induction false} HeadlessPiecesDropped(a: Assembly, fs: seq<Fragment>, total: int)
    requires Later(fs, total) && a.Valid()
    ensures After(a, fs) == a <==> forall i :: 0 <= i < |fs| ==> fs[i].offset != |a.bytes|
  {
    if forall i :: 0 <= i < |fs| ==> fs[i].offset != |a.bytes| {
      MissedPieces(a, fs, total);
    } else {
      var k :| 0 <= k < |fs| && fs[k].offset == |a.bytes|;
      JoinedPieces(a, fs, total, k);
    }
  }

  /** The pieces from `k` on follow one another without a gap. */
  predicate Gapless(fs: seq<Fragment>, k: nat) {
    |fs| <= k + 1 || (Follows(fs[|fs| - 2], fs[|fs| - 1]) && Gapless(fs[..|fs| - 1], k))
  }

  predicate Follows(f: Fragment, g: Fragment) { g.offset == f.offset + |f.data| }

  lemma LaterPrefix(fs: seq<Fragment>, total: int)
    requires Later(fs, total) && fs != []
    ensures Later(fs[..|fs| - 1], total)
  {
    assert forall i :: 0 <= i < |fs| - 1 ==> fs[..|fs| - 1][i] == fs[i];
  }

  /** Once a piece is joined the buffer ends where some piece ends: the last one if
      they follow one another without a gap, else an earlier one. */
  lemma {:induction false} JoinedPieces(a: Assembly, fs: seq<Fragment>, total: int, k: nat)
    requires Later(fs, total) && a.Valid() && k < |fs| && fs[k].offset == |a.bytes|
    ensures var b, last := After(a, fs), fs[|fs| - 1];
            && b.kind == a.kind && |a.bytes| < |b.bytes| <= last.offset + |last.data| && a.bytes <= b.bytes
            && (Gapless(fs, k) <==> |b.bytes| == last.offset + |last.data|)
    ensures Queued(a, fs) != [] <==> Gapless(fs, k) && fs[|fs| - 1].offset + |fs[|fs| - 1].data| == total
    ensures Queued(a, fs) != [] ==> Queued(a, fs) == [After(a, fs)] && |After(a, fs).bytes| == total
    decreases |fs|
  {
    hide Taken, Completes, Later;
    var init, last := fs[..|fs| - 1], fs[|fs| - 1];
    LaterPrefix(fs, total);
    assert forall i :: 0 <= i < |init| ==> init[i] == fs[i];
    LaterPiece(After(a, init), fs, total);
    if k < |init| {
      JoinedPieces(a, init, total, k);
    } else {
      EarlierStartsElsewhere(fs, total, k);
      MissedPieces(a, init, total);
    }
  }

  lemma EarlierStartsElsewhere(fs: seq<Fragment>, total: int, k: nat)
    requires Later(fs, total) && k < |fs|
    ensures forall i :: 0 <= i < k ==> fs[i].offset < fs[k].offset
  {
  }

  lemma LaterPiece(b: Assembly, fs: seq<Fragment>, total: int)
    requires Later(fs, total) && fs != []
    ensures var f := fs[|fs| - 1]; var fits := f.offset == |b.bytes|;
            && Taken(b, f) == (if fits then b.(bytes := b.bytes + f.data) else b)
            && (Completes(b, f) <==> fits && f.offset + |f.data| == total)
            && |f.data| > 0 && f.offset + |f.data| <= total
            && (|fs| > 1 ==> fs[|fs| - 2].offset + |fs[|fs| - 2].data| <= f.offset)
  {
  }

  /** A mixed frame, what was left in the buffer and then the pieces, is queued if
      and only if one of the pieces starts where the buffer ends, and from there
      they follow one another without a gap up to the end of their message. */
  lemma MixedFrameExactlyWhen(a: Assembly, fs: seq<Fragment>, total: int)
    requires Later(fs, total) && a.Valid() && fs != []
    ensures var last := fs[|fs| - 1];
            Queued(a, fs) != [] <==>
              last.offset + |last.data| == total && exists k :: Joins(a, fs, k)
    ensures Queued(a, fs) != [] ==> |Queued(a, fs)| == 1 && a.bytes <= Queued(a, fs)[0].bytes && |Queued(a, fs)[0].bytes| == total
  {
    if k :| 0 <= k < |fs| && fs[k].offset == |a.bytes| {
      JoinedPieces(a, fs, total, k);
      assert Gapless(fs, k) ==> Joins(a, fs, k);
      forall j: nat | Joins(a, fs, j)
        ensures j == k
      {
      }
    } else {
      MissedPieces(a, fs, total);
    }
  }

  predicate Joins(a: Assembly, fs: seq<Fragment>, k: nat) { k < |fs| && fs[k].offset == |a.bytes| && Gapless(fs, k) }
}
