/** From the sensor to the log and back: the 24-byte rows that are written to flash,
    and what `history_point` gives back for a pour the controller has made. */
module PourStorage {
  import opened Clock
  import opened TapTypes
  import opened HistoryRecord
  import opened PourHistory
  import opened HistoryRuns
  import opened Crc
  import opened TapController
  import opened TapTheorems
  import Pours = TapPours
  import Rec = PourRecorder

  // ------------------------------------------------------------ rows and bytes

  function Half(n: int16): (b: seq<byte>)
    ensures |b| == 2
  {
    [n % 0x100, n / 0x100 % 0x100]
  }

  function HalfAt(b: seq<byte>, at: nat): int16
    requires at + 2 <= |b|
  {
    Rec.Int16(b[at] as int + 0x100 * (b[at + 1] as int))
  }

  function Int32(n: uint32): int32 { if n < 0x8000_0000 then n else n - WORD }

  function Flag(b: bool): byte { if b then 1 else 0 }

  /** A row in memory and in flash, little-endian, with a reserved last byte. */
  function RowBytes(r: Rec.Row): (b: seq<byte>)
    ensures |b| == POINT_SIZE
  {
    Bytes(r.elapsed) + Bytes(r.sequence) + Bytes(r.age) + Bytes(Wrap(r.mm)) + Half(r.status) + Half(r.servo) +
    [Flag(r.valid), Flag(r.hold), Flag(r.button), 0]
  }

  function RowOf(b: seq<byte>): Rec.Row
    requires |b| == POINT_SIZE
  {
    Rec.Row(WordAt(b, 0), WordAt(b, 4), WordAt(b, 8), Int32(WordAt(b, 12)), HalfAt(b, 16), HalfAt(b, 18),
        b[20] != 0, b[21] != 0, b[22] != 0)
  }

  lemma HalfInside(b: seq<byte>, at: nat, n: int16)
    requires at + 2 <= |b| && b[at..at + 2] == Half(n)
    ensures HalfAt(b, at) == n
  {
    var w := b[at..at + 2];
    assert w[0] == b[at] && w[1] == b[at + 1];
  }

  lemma Int32OfWrapped(n: int32)
    ensures Int32(Wrap(n)) == n
  {
  }

  /** A row reads back with its signs and flags. */
  lemma RowRoundTrip(r: Rec.Row)
    ensures RowOf(RowBytes(r)) == r
  {
    hide Bytes, WordAt, Half, HalfAt;
    var b := RowBytes(r);
    WordInside(b, 0, r.elapsed);
    WordInside(b, 4, r.sequence);
    WordInside(b, 8, r.age);
    WordInside(b, 12, Wrap(r.mm));
    Int32OfWrapped(r.mm);
    HalfInside(b, 16, r.status);
    HalfInside(b, 18, r.servo);
  }

  /** The stored format of a row: four words, two halves in two's complement, and one
      byte for each flag. */
  lemma RowLayout(r: Rec.Row)
    ensures var b := RowBytes(r);
            && b[0..4] == Bytes(r.elapsed) && b[4..8] == Bytes(r.sequence) && b[8..12] == Bytes(r.age)
            && b[12..16] == Bytes(if r.mm < 0 then r.mm + WORD else r.mm)
            && b[16] as int + 256 * b[17] as int == (if r.status < 0 then r.status + 0x1_0000 else r.status)
            && b[18] as int + 256 * b[19] as int == (if r.servo < 0 then r.servo + 0x1_0000 else r.servo)
            && (b[20] == 1 <==> r.valid) && (b[21] == 1 <==> r.hold) && (b[22] == 1 <==> r.button) && b[23] == 0
  {
    hide Bytes, Half;
    WrappedSign(r.mm);
    HalfSign(r.status);
    HalfSign(r.servo);
  }

  lemma WrappedSign(n: int32)
    ensures Wrap(n) == if n < 0 then n + WORD else n
  {
  }

  lemma HalfSign(n: int16)
    ensures Half(n)[0] as int + 256 * Half(n)[1] as int == if n < 0 then n + 0x1_0000 else n
  {
  }

  function RowsBytes(rows: seq<Rec.Row>): (b: seq<byte>)
    ensures |b| == |rows| * POINT_SIZE
  {
    if rows == [] then [] else RowsBytes(rows[..|rows| - 1]) + RowBytes(rows[|rows| - 1])
  }

  lemma {:induction false} RowsReadBack(rows: seq<Rec.Row>, i: nat)
    requires i < |rows|
    ensures RowOf(RowsBytes(rows)[i * POINT_SIZE..(i + 1) * POINT_SIZE]) == rows[i]
  {
    hide RowBytes, RowOf;
    var last := |rows| - 1;
    var init := RowsBytes(rows[..last]);
    if i == last {
      assert RowsBytes(rows)[i * POINT_SIZE..(i + 1) * POINT_SIZE] == RowBytes(rows[i]);
      RowRoundTrip(rows[i]);
    } else {
      RowsReadBack(rows[..last], i);
      assert (i + 1) * POINT_SIZE <= |init|;
      assert RowsBytes(rows)[i * POINT_SIZE..(i + 1) * POINT_SIZE] == init[i * POINT_SIZE..(i + 1) * POINT_SIZE];
    }
  }

  /** What the writer task is handed; `rest` are the other summary bytes. */
  function PourOf(r: Rec.RecorderState, rest: Rest): Pour { Pour(r.summary.duration, rest, RowsBytes(r.rows)) }

  // --------------------------------------------------------- reading the log back

  lemma HeaderOfNewest(h: History, log: map<uint32, Record>, id: uint32) returns (slot: nat)
    requires Safe(h, log) && id in log && |Newer(log, id)| < 5
    ensures h.Valid() && h.Readable(id) && log[id].header.id == id
    ensures slot < SLOT_COUNT && h.headers[slot] == log[id].header && Stored(h.flash[slot]) == Some(log[id])
    ensures forall i :: 0 <= i < SLOT_COUNT && h.headers[i].id == id ==> i == slot
  {
    hide Stored;
    HeadersDistinct(h, log);
    var ids := HeaderIds(h);
    if id in ids {
      slot :| 0 <= slot < SLOT_COUNT && ids[slot] == id;
      assert FlashId(h.flash[slot]) == id;
      forall i | 0 <= i < SLOT_COUNT && h.headers[i].id == id
        ensures i == slot
      {
        assert ids[i] == id;
      }
      StoredFits(h.flash[slot]);
    } else {
      var j :| AllGreaterBut(ids, j, id);
      FiveNewer(h, log, j, id);
      assert false;
    }
  }

  lemma StoredFits(image: Image)
    requires Stored(image).Some?
    ensures Stored(image).value.header.count <= MAX_POINTS
    ensures Stored(image).value.points == Payload(image, Stored(image).value.header.count)
  {
  }

  /** What `history_point` gives for row `index` of a pour with these row bytes. */
  ghost predicate GivesRow(h: History, id: uint32, points: seq<byte>, index: nat)
    requires h.Valid() && h.Readable(id)
  {
    Point(h, id, index, 0, {}) ==
    if (index + 1) * POINT_SIZE <= |points| then Some(points[index * POINT_SIZE..(index + 1) * POINT_SIZE]) else None
  }

  /** The rows of each of the five newest committed pours can be read, one by one,
      and no others. */
  lemma NewestFiveCanBeRead(h: History, log: map<uint32, Record>, id: uint32, index: nat)
    requires Safe(h, log) && id in log && |Newer(log, id)| < 5
    ensures h.Valid() && h.Readable(id) && GivesRow(h, id, log[id].points, index)
  {
    hide Stored, Safe, Point, RowSlice;
    SafeIsValid(h, log);
    var slot := HeaderOfNewest(h, log, id);
    StoredFits(h.flash[slot]);
    PointIsAt(h, id, index, 0, slot);
    if index < log[id].header.count {
      RowInPayload(h.flash[slot], index, log[id].header.count);
    }
  }

  lemma {:induction false} PointIsAt(h: History, id: uint32, index: nat, from: nat, slot: nat)
    requires h.Valid() && h.Readable(id) && from <= slot < SLOT_COUNT && h.headers[slot].id == id
    requires forall i :: 0 <= i < SLOT_COUNT && h.headers[i].id == id ==> i == slot
    ensures Point(h, id, index, from, {}) ==
            if index < h.headers[slot].count then Some(RowSlice(h.flash[slot], index)) else None
    decreases slot - from
  {
    if from < slot {
      PointIsAt(h, id, index, from + 1, slot);
    } else {
      NoPointAfter(h, id, index, slot + 1);
    }
  }

  lemma {:induction false} NoPointAfter(h: History, id: uint32, index: nat, from: nat)
    requires h.Valid() && h.Readable(id) && from <= SLOT_COUNT
    requires forall i :: from <= i < SLOT_COUNT ==> h.headers[i].id != id
    ensures Point(h, id, index, from, {}) == None
    decreases SLOT_COUNT - from
  {
    if from < SLOT_COUNT {
      NoPointAfter(h, id, index, from + 1);
    }
  }

  lemma RowInPayload(image: Image, index: nat, count: nat)
    requires index < count <= MAX_POINTS
    ensures RowSlice(image, index) == Payload(image, count)[index * POINT_SIZE..(index + 1) * POINT_SIZE]
  {
    var at := HEADER_SIZE + index * POINT_SIZE;
    assert RowSlice(image, index) == image[at..at + POINT_SIZE];
    assert Payload(image, count)[index * POINT_SIZE..(index + 1) * POINT_SIZE] == image[at..at + POINT_SIZE];
  }

  lemma {:induction false} LogStays(worlds: seq<World>, saves: seq<HistoryRuns.Event>, n: nat, m: nat, id: uint32)
    requires IsRun(worlds, saves) && FirstBoot(worlds[0]) && n <= m <= |saves| && id in worlds[n].log
    ensures id in worlds[m].log && worlds[m].log[id] == worlds[n].log[id]
    decreases m
  {
    hide World.Apply, Safe, Stored;
    if n < m {
      LogStays(worlds, saves, n, m - 1, id);
      HistoryRuns.RunIsSafe(worlds, saves, m - 1);
      HistoryRuns.ApplyKeeps(worlds[m - 1], saves[m - 1]);
    }
  }

  /** A reader of the log is given this row. */
  ghost predicate ReadsBack(h: History, id: uint32, i: nat, row: Rec.Row)
    requires h.Valid() && h.Readable(id)
  {
    var found := Point(h, id, i, 0, {});
    found.Some? && |found.value| == POINT_SIZE && RowOf(found.value) == row
  }

  /** A reader is given row `i` exactly when there is one, and as it was recorded. */
  ghost predicate RowComesBack(h: History, id: uint32, rows: seq<Rec.Row>, i: nat)
    requires h.Valid() && h.Readable(id)
  {
    if i < |rows| then ReadsBack(h, id, i, rows[i]) else Point(h, id, i, 0, {}) == None
  }

  /** A reader is given row `i` exactly when an `i`-th row was due, and the row
      shows the moment it was due at. */
  ghost predicate MomentComesBack(h: History, id: uint32, ms: seq<Rec.Moment>, i: nat)
    requires h.Valid() && h.Readable(id)
  {
    var due := Rec.Due(ms);
    if i < |due| then exists row :: ReadsBack(h, id, i, row) && Rec.Shows(row, ms, Rec.Since(due, i), due[i])
    else Point(h, id, i, 0, {}) == None
  }

  /** A pour handed to the writer and saved is in the log for good, and as long as
      it is one of the five newest its rows read back as they were recorded. */
  lemma SavedRowsReadBack(r: Rec.RecorderState, rest: Rest, worlds: seq<World>, saves: seq<HistoryRuns.Event>, n: nat, m: nat)
    requires IsRun(worlds, saves) && FirstBoot(worlds[0]) && n < m <= |saves|
    requires saves[n] == SavePour(PourOf(r, rest), Completes)
    ensures var h, log, id := worlds[m].h, worlds[m].log, worlds[n].h.nextId;
            && h.Valid() && id in log
            && (|Newer(log, id)| < 5 ==> h.Readable(id) && forall i: nat :: RowComesBack(h, id, r.rows, i))
  {
    hide World.Apply, Safe, Stored, Point, RowOf, RowsBytes, FlashSafe;
    HistoryRuns.RunIsSafe(worlds, saves, n);
    HistoryRuns.RunIsSafe(worlds, saves, m);
    SafeIsValid(worlds[m].h, worlds[m].log);
    SuccessIsCommitted(worlds[n], PourOf(r, rest));
    var h, log, id := worlds[m].h, worlds[m].log, worlds[n].h.nextId;
    assert worlds[n + 1].log == worlds[n].Apply(saves[n]).log;
    LogStays(worlds, saves, n + 1, m, id);
    if |Newer(log, id)| < 5 {
      NewestFiveCanBeRead(h, log, id, 0);
      forall i: nat
        ensures RowComesBack(h, id, r.rows, i)
      {
        NewestFiveCanBeRead(h, log, id, i);
        if i < |r.rows| {
          RowsReadBack(r.rows, i);
        }
      }
    }
  }

  lemma SafeIsValid(h: History, log: map<uint32, Record>)
    requires Safe(h, log)
    ensures h.Valid()
  {
  }

  /** From the sensor to a reader of the log. When iteration `end` ends a pour, and
      the save of what it hands over reports success, then from then on, through
      any later saves, failures, cuts and reboots, while the pour is one of the
      five newest: `history_point` gives row `i` exactly when the pour had an
      `i`-th moment at which a row was due, and the row shows that moment. */
  lemma {:induction false} EveryPourCanBeReadBack(
    k: Tap, e: Env, events: seq<TapController.Event>, end: Env, d: nat,
    rest: Rest, worlds: seq<World>, saves: seq<HistoryRuns.Event>, n: nat, m: nat)
    requires Reachable(k) && !k.Pouring() && Pours.PourThroughout(k.Step(e), events) && k.recorder.available
    requires !After(k.Step(e), events).Step(end).Pouring()
    requires Pours.Paced(e.t, events, d) && Pours.LastTime(e.t, events) <= end.t <= Pours.LastTime(e.t, events) + d
    requires d < WORD - 121_000 && e.lag <= Pours.MAX_LAG
    requires Pours.Prompt(Pours.MomentOf(k, e), k.Step(e), events + [Iterate(end)])
    requires IsRun(worlds, saves) && FirstBoot(worlds[0]) && n < m <= |saves|
    requires saves[n] == SavePour(PourOf(After(k.Step(e), events).Step(end).recorder, rest), Completes)
    ensures var ms := [Pours.MomentOf(k, e)] + Pours.Moments(k.Step(e), events + [Iterate(end)]);
            var h, log, id, due := worlds[m].h, worlds[m].log, worlds[n].h.nextId, Rec.Due(ms);
            && h.Valid() && id in log
            && (|Newer(log, id)| < 5 ==> h.Readable(id) && forall i: nat :: MomentComesBack(h, id, ms, i))
  {
    hide Tap.Step, After, Pours.MomentOf, World.Apply, ReadsBack, Point, Rec.Shows, Rec.Due;
    Pours.EveryPourIsHandedOverWhole(k, e, events, end, d);
    var r, h, id := After(k.Step(e), events).Step(end).recorder, worlds[m].h, worlds[n].h.nextId;
    var ms := [Pours.MomentOf(k, e)] + Pours.Moments(k.Step(e), events + [Iterate(end)]);
    SavedRowsReadBack(r, rest, worlds, saves, n, m);
    if |Newer(worlds[m].log, id)| < 5 {
      forall i: nat
        ensures MomentComesBack(h, id, ms, i)
      {
        assert RowComesBack(h, id, r.rows, i);
      }
    }
  }
}
