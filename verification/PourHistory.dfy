/** The pour log in flash (pour_history.cpp): six slots, of which the writer task
    always overwrites the one with the smallest id, and the boot scan. A save may
    fail, or the power may go, at every stage of erase, rows, header and magic. */
module PourHistory {
  import opened Clock
  import opened Crc
  import opened HistoryRecord

  /** What the writer is handed: the rows and the summary words it does not set. */
  datatype Pour = Pour(duration: uint32, rest: Rest, points: seq<byte>)
  {
    predicate Valid() { |points| % POINT_SIZE == 0 && 0 < |points| <= MAX_POINTS * POINT_SIZE }

    function Count(): nat { |points| / POINT_SIZE }
  }

  datatype Stage = Rows | HeaderBody | MagicWord

  /** How a save goes. `EraseFails` leaves the slot as it was. `WriteFails` and
      `Cut` happen in one stage, whose bytes are then `torn`; `CutInErase` leaves
      the slot as `image`. After a cut the memory is gone until the next boot. */
  datatype Fate =
    | Completes
    | EraseFails
    | WriteFails(stage: Stage, torn: seq<byte>)
    | CutInErase(image: Image)
    | Cut(stage: Stage, torn: seq<byte>)

  const NO_HEADER: Header := Header(0, 0, 0, 0, 0, 0, 0, 0, Filled(180, 0))

  const NO_HEADERS: seq<Header> := [NO_HEADER, NO_HEADER, NO_HEADER, NO_HEADER, NO_HEADER, NO_HEADER]

  const ERASED: Image := Filled(SLOT_SIZE, 0xFF)

  function Sealed(p: Pour, id: uint32): Header
    requires p.Valid()
  {
    var h := Header(MAGIC, FORMAT, p.Count(), Crc.Crc(p.points, INITIAL), 0, id, p.duration, p.Count(), p.rest);
    h.(headerCrc := HeaderCrc(h))
  }

  function Write(image: Image, at: nat, data: seq<byte>): Image
    requires at + |data| <= SLOT_SIZE
  {
    image[..at] + data + image[at + |data|..]
  }

  function StageStart(stage: Stage): nat {
    match stage
    case Rows => HEADER_SIZE
    case HeaderBody => 4
    case MagicWord => 0
  }

  function StageData(h: Header, points: seq<byte>, stage: Stage): seq<byte> {
    match stage
    case Rows => points
    case HeaderBody => Encode(h)[4..]
    case MagicWord => Bytes(h.magic)
  }

  /** Torn bytes stay within what the stage writes. */
  predicate Fits(h: Header, points: seq<byte>, stage: Stage, torn: seq<byte>) {
    |torn| == |StageData(h, points, stage)|
  }

  function WithRows(points: seq<byte>): Image
    requires |points| <= MAX_POINTS * POINT_SIZE
  {
    Write(ERASED, HEADER_SIZE, points)
  }

  function WithHeader(h: Header, points: seq<byte>): Image
    requires |points| <= MAX_POINTS * POINT_SIZE
  {
    Write(WithRows(points), 4, Encode(h)[4..])
  }

  function Finished(h: Header, points: seq<byte>): Image
    requires |points| <= MAX_POINTS * POINT_SIZE
  {
    Write(WithHeader(h, points), 0, Bytes(h.magic))
  }

  /** The slot when the given stage has been torn, the earlier ones being done. */
  function Torn(h: Header, points: seq<byte>, stage: Stage, torn: seq<byte>): Image
    requires |points| <= MAX_POINTS * POINT_SIZE && Fits(h, points, stage, torn)
  {
    match stage
    case Rows => Write(ERASED, HEADER_SIZE, torn)
    case HeaderBody => Write(WithRows(points), 4, torn)
    case MagicWord => Write(WithHeader(h, points), 0, torn)
  }

  /** The first slot with the smallest id among the first `n`. */
  function Victim(headers: seq<Header>, n: nat): (slot: nat)
    requires 0 < n <= |headers|
    ensures slot < n
    ensures forall i :: 0 <= i < n ==> headers[slot].id <= headers[i].id
    ensures forall i :: 0 <= i < slot ==> headers[slot].id < headers[i].id
  {
    if n == 1 then 0
    else
      var best := Victim(headers, n - 1);
      if headers[n - 1].id < headers[best].id then n - 1 else best
  }

  datatype History = History(flash: seq<Image>, headers: seq<Header>, nextId: uint32)
  {
    predicate Valid() { |flash| == SLOT_COUNT && |headers| == SLOT_COUNT }

    function Slot(): nat
      requires Valid()
    {
      Victim(headers, SLOT_COUNT)
    }

    predicate Possible(p: Pour, f: Fate)
      requires Valid()
    {
      p.Valid() &&
      match f
      case WriteFails(stage, torn) => Fits(Sealed(p, nextId), p.points, stage, torn)
      case Cut(stage, torn) => Fits(Sealed(p, nextId), p.points, stage, torn)
      case CutInErase(image) => Stored(image) == None || Stored(image) == Stored(flash[Slot()])
      case _ => true
    }

    /** One turn of the writer task, up to a cut. */
    function Save(p: Pour, f: Fate): History
      requires Valid() && Possible(p, f)
    {
      var slot, h, tried := Slot(), Sealed(p, nextId), this.(nextId := Wrap(nextId + 1));
      match f
      case EraseFails => tried
      case CutInErase(image) => tried.(flash := flash[slot := image])
      case WriteFails(stage, torn) =>
        tried.(flash := flash[slot := Torn(h, p.points, stage, torn)], headers := headers[slot := NO_HEADER])
      case Cut(stage, torn) =>
        tried.(flash := flash[slot := Torn(h, p.points, stage, torn)], headers := headers[slot := NO_HEADER])
      case Completes =>
        tried.(flash := flash[slot := Finished(h, p.points)], headers := headers[slot := h])
    }

    /** Headers in memory with this id have a count that fits a slot. */
    predicate Readable(id: uint32)
      requires Valid()
    {
      forall i :: 0 <= i < SLOT_COUNT && headers[i].id == id ==> headers[i].count <= MAX_POINTS
    }

    function Boot(): History
      requires Valid()
    {
      History(flash, Scanned(flash, SLOT_COUNT), NextId(flash, SLOT_COUNT))
    }
  }

  /** What a boot sees of the flash: a slot that cannot be read looks like none. */
  function Seen(flash: seq<Image>, unreadable: set<nat>): (seen: seq<Image>)
    ensures |seen| == |flash|
    ensures forall i :: 0 <= i < |flash| ==> seen[i] == if i in unreadable then ERASED else flash[i]
  {
    seq(|flash|, i requires 0 <= i < |flash| => if i in unreadable then ERASED else flash[i])
  }

  /** The headers the boot scan has collected from the first `n` slots. */
  function Scanned(flash: seq<Image>, n: nat): (headers: seq<Header>)
    requires |flash| == SLOT_COUNT && n <= SLOT_COUNT
    ensures |headers| == SLOT_COUNT
  {
    if n == 0 then NO_HEADERS
    else
      match Stored(flash[n - 1])
      case None => Scanned(flash, n - 1)
      case Some(r) => Scanned(flash, n - 1)[n - 1 := r.header]
  }

  function NextId(flash: seq<Image>, n: nat): uint32
    requires |flash| == SLOT_COUNT && n <= SLOT_COUNT
  {
    if n == 0 then 1
    else
      var next := NextId(flash, n - 1);
      match Stored(flash[n - 1])
      case None => next
      case Some(r) => if next < Wrap(r.header.id + 1) then Wrap(r.header.id + 1) else next
  }

  lemma ErasedIsEmpty()
    ensures Stored(ERASED) == None
  {
    hide Crc.Crc, Encode, HeaderCrc;
    assert ERASED[..HEADER_SIZE][0] == 0xFF;
    assert WordAt(ERASED[..HEADER_SIZE], 0) != MAGIC;
  }

  /** Insertion into a list ordered by descending id. */
  function Insert(h: Header, s: seq<Header>): seq<Header> {
    if s == [] || h.id > s[0].id then [h] + s else [s[0]] + Insert(h, s[1..])
  }

  function Collected(headers: seq<Header>, n: nat): seq<Header>
    requires n <= |headers|
  {
    if n == 0 then []
    else if headers[n - 1].id != 0 then Insert(headers[n - 1], Collected(headers, n - 1))
    else Collected(headers, n - 1)
  }

  /** `history_list`: the headers with an id, greatest first, at most five. */
  function Listed(headers: seq<Header>): seq<Header> {
    var all := Collected(headers, |headers|);
    if |all| > 5 then all[..5] else all
  }

  /** Where row `index` of a slot is. */
  function RowSlice(image: Image, index: nat): (row: seq<byte>)
    requires index < MAX_POINTS
    ensures |row| == POINT_SIZE
  {
    image[HEADER_SIZE + index * POINT_SIZE..][..POINT_SIZE]
  }

  /** The row of the first slot from `slot` on that has this id and so many rows. */
  function Point(h: History, id: uint32, index: nat, slot: nat, unreadable: set<nat>): Option<seq<byte>>
    requires h.Valid() && h.Readable(id) && slot <= SLOT_COUNT
    decreases SLOT_COUNT - slot
  {
    if slot == SLOT_COUNT then None
    else if h.headers[slot].id != id || index >= h.headers[slot].count then Point(h, id, index, slot + 1, unreadable)
    else if slot in unreadable then None
    else Some(RowSlice(h.flash[slot], index))
  }

  /** The log as the firmware holds it: the partition and the RAM beside it. */
  class Log {
    const flash: array<Image>
    const headers: array<Header>
    var nextId: uint32

    ghost predicate Valid()
      reads this
    {
      flash.Length == SLOT_COUNT && headers.Length == SLOT_COUNT
    }

    ghost function View(): History
      reads this, flash, headers
      requires Valid()
    {
      History(flash[..], headers[..], nextId)
    }

    constructor (partition: seq<Image>)
      requires |partition| == SLOT_COUNT
      ensures Valid() && fresh(flash) && fresh(headers)
      ensures View() == History(partition, NO_HEADERS, 1)
    {
      flash := new Image[SLOT_COUNT](i requires 0 <= i < SLOT_COUNT => partition[i]);
      headers := new Header[SLOT_COUNT](i => NO_HEADER);
      nextId := 1;
    }

    /** `load_slots`, on memory as it is after a reset; partition reads of some slots
        may fail. */
    method LoadSlots(unreadable: set<nat>)
      requires Valid() && headers[..] == NO_HEADERS && nextId == 1
      modifies this`nextId, headers
      ensures Valid() && flash[..] == old(flash[..])
      ensures headers[..] == Scanned(Seen(flash[..], unreadable), SLOT_COUNT)
      ensures nextId == NextId(Seen(flash[..], unreadable), SLOT_COUNT)
      ensures unreadable == {} ==> View() == old(View()).Boot()
    {
      hide Stored;
      ErasedIsEmpty();
      ghost var seen := Seen(flash[..], unreadable);
      assert unreadable == {} ==> seen == flash[..];
      for slot := 0 to SLOT_COUNT
        invariant headers[..] == Scanned(seen, slot) && nextId == NextId(seen, slot)
        invariant flash[..] == old(flash[..])
      {
        if slot in unreadable {
          continue;
        }
        var found := CheckSlot(flash[slot]);
        if found.Some? {
          headers[slot] := found.value;
          var next := Wrap(found.value.id + 1);
          if nextId < next {
            nextId := next;
          }
        }
      }
    }

    method FindSlot() returns (slot: nat)
      requires Valid()
      ensures slot == View().Slot()
    {
      slot := 0;
      for i := 1 to SLOT_COUNT
        invariant slot == Victim(headers[..], i)
      {
        if headers[i].id < headers[slot].id {
          slot := i;
        }
      }
    }

    method HistoryList() returns (list: seq<Header>)
      requires Valid()
      ensures list == Listed(View().headers)
    {
      var sorted: seq<Header> := [];
      for i := 0 to SLOT_COUNT
        invariant sorted == Collected(headers[..], i)
      {
        if headers[i].id != 0 {
          sorted := Insert(headers[i], sorted);
        }
      }
      list := if |sorted| > 5 then sorted[..5] else sorted;
    }

    /** `history_point`: the bytes of one row, as the first slot with that id has them;
        nothing if there is no such row or it cannot be read. */
    method HistoryPoint(id: uint32, index: nat, unreadable: set<nat>) returns (row: Option<seq<byte>>)
      requires Valid() && View().Readable(id)
      ensures row == Point(View(), id, index, 0, unreadable)
    {
      for slot := 0 to SLOT_COUNT
        invariant Point(View(), id, index, 0, unreadable) == Point(View(), id, index, slot, unreadable)
      {
        if headers[slot].id != id || index >= headers[slot].count {
          continue;
        }
        if slot in unreadable {
          return None;
        }
        return Some(RowSlice(flash[slot], index));
      }
      row := None;
    }

    /** One stage of the write; false when the write fails or the power goes. */
    method WriteStage(slot: nat, stage: Stage, data: seq<byte>, f: Fate) returns (ok: bool)
      requires Valid() && slot < SLOT_COUNT && StageStart(stage) + |data| <= SLOT_SIZE
      requires (f.WriteFails? || f.Cut?) && f.stage == stage ==> |f.torn| == |data|
      modifies flash
      ensures ok == !((f.WriteFails? || f.Cut?) && f.stage == stage)
      ensures flash[..] == old(flash[..])[slot := Write(old(flash[slot]), StageStart(stage), if ok then data else f.torn)]
    {
      ok := !((f.WriteFails? || f.Cut?) && f.stage == stage);
      flash[slot] := Write(flash[slot], StageStart(stage), if ok then data else f.torn);
    }

    /** One turn of the writer task. `ok` is what it reports; a cut reports nothing. */
    method Save(p: Pour, f: Fate) returns (ok: bool)
      requires Valid() && View().Possible(p, f)
      modifies this`nextId, flash, headers
      ensures Valid() && View() == old(View()).Save(p, f)
      ensures ok == f.Completes?
    {
      hide Stored, Sealed, Encode, Write, Bytes;
      var slot := FindSlot();
      var pending := Sealed(p, nextId);
      nextId := Wrap(nextId + 1);
      if f.EraseFails? {
        return false;
      }
      if f.CutInErase? {
        flash[slot] := f.image;
        return false;
      }
      flash[slot] := ERASED;
      headers[slot] := NO_HEADER;
      ok := WriteStage(slot, Rows, p.points, f);
      if ok {
        ok := WriteStage(slot, HeaderBody, Encode(pending)[4..], f);
      }
      if ok {
        ok := WriteStage(slot, MagicWord, Bytes(pending.magic), f);
      }
      if ok {
        headers[slot] := pending;
      }
    }
  }
}
