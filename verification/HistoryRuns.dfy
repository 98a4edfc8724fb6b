/** Crash consistency of the pour log: over every run of saves, failures, power
    cuts and reboots, the flash holds the five newest committed pours. */
module HistoryRuns {
  import opened Clock
  import opened Crc
  import opened HistoryRecord
  import opened PourHistory

  // ------------------------------------------------------- images of one slot

  lemma MagicWordIsUnique(b: seq<byte>)
    requires |b| >= 4 && WordAt(b, 0) == MAGIC
    ensures b[..4] == Bytes(MAGIC)
  {
    var x, y, z, w := b[0] as int, b[1] as int, b[2] as int, b[3] as int;
    assert w == 0x50 && z == 0x4F && y == 0x55 && x == 0x52;
  }

  /** Without the magic word a slot is never taken for a pour. */
  lemma NoMagicNoPour(image: Image)
    requires image[..4] != Bytes(MAGIC)
    ensures Stored(image) == None
  {
    hide Encode, Crc.Crc, Bytes, WordAt;
    assert image[..HEADER_SIZE][..4] == image[..4];
    if Stored(image).Some? {
      MagicWordIsUnique(image[..HEADER_SIZE]);
    }
  }

  lemma ErasedHasNoMagic()
    ensures ERASED[..4] != Bytes(MAGIC)
  {
    assert ERASED[..4][0] == 0xFF && Bytes(MAGIC)[0] == 0x52;
  }

  /** A slot torn before the commit is not taken for a pour; torn in the commit,
      it is one exactly when all four bytes got through. */
  lemma TornSlot(p: Pour, id: uint32, stage: Stage, torn: seq<byte>)
    requires p.Valid() && Fits(Sealed(p, id), p.points, stage, torn)
    ensures var image := Torn(Sealed(p, id), p.points, stage, torn);
            if stage == MagicWord && torn == Bytes(MAGIC) then image == Finished(Sealed(p, id), p.points)
            else Stored(image) == None
  {
    hide Stored, Encode, Crc.Crc, Bytes, WordAt, HeaderCrc;
    ErasedHasNoMagic();
    var h := Sealed(p, id);
    var image := Torn(h, p.points, stage, torn);
    match stage
    case Rows =>
      assert image[..4] == ERASED[..4];
      NoMagicNoPour(image);
    case HeaderBody =>
      assert WithRows(p.points)[..4] == ERASED[..4];
      assert image[..4] == ERASED[..4];
      NoMagicNoPour(image);
    case MagicWord =>
      assert image[..4] == torn;
      if torn != Bytes(MAGIC) {
        NoMagicNoPour(image);
      }
  }

  /** A finished slot reads back as exactly the pour that was saved, byte for
      byte, unless its id is 0. */
  lemma FinishedSlot(p: Pour, id: uint32)
    requires p.Valid()
    ensures Stored(Finished(Sealed(p, id), p.points)) ==
            if id > 0 then Some(Record(Sealed(p, id), p.points)) else None
  {
    hide Encode, Crc.Crc, Bytes, WordAt, Decode, Finished;
    var h := Sealed(p, id);
    var image := Finished(h, p.points);
    assert h.(headerCrc := 0) == Header(MAGIC, FORMAT, p.Count(), Crc.Crc(p.points, INITIAL), 0, id, p.duration, p.Count(), p.rest);
    assert image[..HEADER_SIZE] == Encode(h) by { EncodeStartsWithMagic(h); HeaderBytes(h, p.points); }
    HeaderRoundTrip(h);
    assert HeaderOf(image) == h;
    assert h.count * POINT_SIZE == |p.points| && 0 < h.count <= MAX_POINTS;
    RowBytes(h, p.points);
    assert Payload(image, h.count) == p.points;
    assert HeaderCrc(h) == h.headerCrc;
  }

  lemma EncodeStartsWithMagic(h: Header)
    ensures Encode(h)[..4] == Bytes(h.magic)
  {
    hide Bytes;
  }

  lemma HeaderBytes(h: Header, points: seq<byte>)
    requires |points| <= MAX_POINTS * POINT_SIZE
    ensures Finished(h, points)[..HEADER_SIZE] == Bytes(h.magic) + Encode(h)[4..]
    ensures Bytes(h.magic) + Encode(h)[4..] == Encode(h)
  {
    hide Bytes, Encode;
    EncodeStartsWithMagic(h);
    assert Encode(h) == Encode(h)[..4] + Encode(h)[4..];
  }

  lemma RowBytes(h: Header, points: seq<byte>)
    requires |points| <= MAX_POINTS * POINT_SIZE
    ensures Finished(h, points)[HEADER_SIZE..HEADER_SIZE + |points|] == points
  {
    hide Bytes, Encode;
    var n := HEADER_SIZE + |points|;
    assert WithRows(points)[HEADER_SIZE..n] == points;
    assert WithHeader(h, points)[HEADER_SIZE..n] == WithRows(points)[HEADER_SIZE..n];
    assert Finished(h, points)[HEADER_SIZE..n] == WithHeader(h, points)[HEADER_SIZE..n];
  }

  // ------------------------------------------------------------- the invariant

  /** The id of the pour a slot holds in flash; 0 if it holds none. */
  function FlashId(image: Image): uint32 {
    match Stored(image)
    case None => 0
    case Some(r) => r.header.id
  }

  /** Every committed id is in one of the slots `ids`, or all slots but one hold
      greater ids: the five newest are always there. */
  ghost predicate HoldsNewest(ids: seq<uint32>, log: map<uint32, Record>) {
    forall id :: id in log ==> id in ids || exists j :: AllGreaterBut(ids, j, id)
  }

  predicate AllGreaterBut(ids: seq<uint32>, j: int, id: uint32) {
    0 <= j < |ids| && forall i :: 0 <= i < |ids| && i != j ==> ids[i] > id
  }

  function HeaderIds(h: History): seq<uint32>
    requires h.Valid()
  {
    seq(SLOT_COUNT, i requires 0 <= i < SLOT_COUNT => h.headers[i].id)
  }

  function FlashIds(flash: seq<Image>): seq<uint32>
    requires |flash| == SLOT_COUNT
  {
    seq(SLOT_COUNT, i requires 0 <= i < SLOT_COUNT => FlashId(flash[i]))
  }

  ghost predicate Distinct(ids: seq<uint32>) {
    forall i, j :: 0 <= i < j < |ids| && ids[i] != 0 ==> ids[i] != ids[j]
  }

  ghost predicate LogBelow(log: map<uint32, Record>, bound: int) {
    forall id :: id in log ==> 0 < id < bound && log[id].header.id == id
  }

  /** What the flash alone guarantees, and so what a boot can build on. */
  ghost predicate FlashSafe(flash: seq<Image>, log: map<uint32, Record>, bound: int) {
    && |flash| == SLOT_COUNT
    && Distinct(FlashIds(flash))
    && LogBelow(log, bound)
    && HoldsNewest(FlashIds(flash), log)
    && (forall i :: 0 <= i < SLOT_COUNT ==> FlashId(flash[i]) < bound)
    && (forall i :: 0 <= i < SLOT_COUNT && FlashId(flash[i]) in log ==> Stored(flash[i]) == Some(log[FlashId(flash[i])]))
  }

  /** The invariant while the firmware runs: the headers in memory describe
      committed pours that are in flash, and hold the newest of them; anything
      else that flash would pass off as a pour is not in the log. */
  ghost predicate Safe(h: History, log: map<uint32, Record>) {
    && h.Valid()
    && FlashSafe(h.flash, log, h.nextId)
    && HoldsNewest(HeaderIds(h), log)
    && (forall i :: 0 <= i < SLOT_COUNT ==>
          if h.headers[i].id != 0
          then FlashId(h.flash[i]) == h.headers[i].id && h.headers[i].id in log && log[h.headers[i].id].header == h.headers[i]
          else FlashId(h.flash[i]) !in log)
  }

  // ------------------------------------------- slot ids, whatever they stand for

  /** Giving up the smallest id loses nothing that must be kept. */
  lemma EraseKeepsNewest(ids: seq<uint32>, slot: nat, log: map<uint32, Record>, bound: int)
    requires slot < |ids| && (forall i :: 0 <= i < |ids| ==> ids[slot] <= ids[i]) && Distinct(ids)
    requires HoldsNewest(ids, log) && LogBelow(log, bound)
    ensures HoldsNewest(ids[slot := 0], log)
  {
    var less := ids[slot := 0];
    forall id | id in log && id !in less
      ensures exists j :: AllGreaterBut(less, j, id)
    {
      forall i | 0 <= i < |ids| && i != slot
        ensures less[i] > id
      {
        assert less[i] in less;
        if id in ids {
          var k :| 0 <= k < |ids| && ids[k] == id;
          assert k == slot by { assert less[k] == id || k == slot; }
        } else {
          var j :| AllGreaterBut(ids, j, id);
          assert i == j ==> ids[slot] > id;
        }
      }
      assert AllGreaterBut(less, slot, id);
    }
  }

  /** Filling empty slots loses nothing. */
  lemma FillKeepsNewest(ids: seq<uint32>, more: seq<uint32>, log: map<uint32, Record>, bound: int)
    requires |more| == |ids| && (forall i :: 0 <= i < |ids| ==> more[i] == ids[i] || ids[i] == 0)
    requires HoldsNewest(ids, log) && LogBelow(log, bound)
    ensures HoldsNewest(more, log)
  {
    forall id | id in log
      ensures id in more || exists j :: AllGreaterBut(more, j, id)
    {
      if id in ids {
        var i :| 0 <= i < |ids| && ids[i] == id;
        assert more[i] == id;
      } else {
        var j :| AllGreaterBut(ids, j, id);
        assert AllGreaterBut(more, j, id);
      }
    }
  }

  lemma CommitKeepsNewest(ids: seq<uint32>, slot: nat, log: map<uint32, Record>, next: uint32, r: Record)
    requires slot < |ids| && ids[slot] == 0 && HoldsNewest(ids, log) && LogBelow(log, next)
    ensures HoldsNewest(ids[slot := next], log[next := r])
  {
    var more := ids[slot := next];
    FillKeepsNewest(ids, more, log, next);
    assert more[slot] == next;
  }

  // ------------------------------------------------------------- one save, a boot

  /** The log after a save: a pour is committed when the save reports success. */
  function Logged(h: History, log: map<uint32, Record>, p: Pour, f: Fate): map<uint32, Record>
    requires h.Valid() && h.Possible(p, f)
  {
    if f.Completes? then log[h.nextId := Record(Sealed(p, h.nextId), p.points)] else log
  }

  lemma SaveFacts(h: History, log: map<uint32, Record>, p: Pour, f: Fate)
    requires Safe(h, log) && h.Possible(p, f)
    ensures HoldsNewest(HeaderIds(h)[h.Slot() := 0], log)
    ensures forall i :: 0 <= i < SLOT_COUNT && HeaderIds(h)[i] != 0 ==> FlashIds(h.flash)[i] == HeaderIds(h)[i]
    ensures var image := h.Save(p, f).flash[h.Slot()];
            match f
            case Completes => Stored(image) == Some(Record(Sealed(p, h.nextId), p.points))
            case EraseFails => image == h.flash[h.Slot()]
            case CutInErase(_) => FlashId(image) == 0 || Stored(image) == Stored(h.flash[h.Slot()])
            case _ => FlashId(image) == 0 || FlashId(image) == h.nextId
    ensures h.nextId > 0
  {
    hide Stored, Sealed, Finished, Torn, Fits;
    var slot := h.Slot();
    assert FlashId(h.flash[0]) < h.nextId;
    assert Distinct(HeaderIds(h)) by {
      assert forall i :: 0 <= i < SLOT_COUNT ==> HeaderIds(h)[i] == 0 || HeaderIds(h)[i] == FlashIds(h.flash)[i];
    }
    EraseKeepsNewest(HeaderIds(h), slot, log, h.nextId);
    FinishedSlot(p, h.nextId);
    if f.WriteFails? || f.Cut? {
      TornSlot(p, h.nextId, f.stage, f.torn);
    }
    assert Sealed(p, h.nextId).id == h.nextId by { SealedId(p, h.nextId); }
  }

  lemma SealedId(p: Pour, id: uint32)
    requires p.Valid()
    ensures Sealed(p, id).id == id
  {
    hide HeaderCrc;
  }

  /** Replacing one slot of a safe flash by nothing, by the same pour or by the
      newest one. */
  lemma FlashStaysSafe(h: History, log: map<uint32, Record>, image: Image)
    requires Safe(h, log) && HoldsNewest(HeaderIds(h)[h.Slot() := 0], log)
    requires FlashId(image) == 0 || FlashId(image) == h.nextId || Stored(image) == Stored(h.flash[h.Slot()])
    ensures FlashSafe(h.flash[h.Slot() := image], log, h.nextId + 1)
  {
    hide Stored, History.Slot;
    var slot := h.Slot();
    assert slot < SLOT_COUNT by { SlotInRange(h); }
    var flash := h.flash[slot := image];
    assert FlashIds(flash) == FlashIds(h.flash)[slot := FlashId(image)];
    FillKeepsNewest(HeaderIds(h)[slot := 0], FlashIds(flash), log, h.nextId);
    var before, after := FlashIds(h.flash), FlashIds(flash);
    assert forall i :: 0 <= i < SLOT_COUNT && i != slot ==> after[i] == before[i] == FlashId(flash[i]);
    forall i, j | 0 <= i < j < SLOT_COUNT && after[i] != 0
      ensures after[i] != after[j]
    {
      assert before[i] < h.nextId && before[j] < h.nextId;
    }
  }

  lemma SlotInRange(h: History)
    requires h.Valid()
    ensures h.Slot() < SLOT_COUNT
  {
  }

  predicate NoWrap(h: History) { h.nextId < WORD - 1 }

  /** A save that the firmware survives, failed or not, keeps the log safe; a
      committed pour gets an id greater than every committed one before it. */
  lemma SaveKeeps(h: History, log: map<uint32, Record>, p: Pour, f: Fate)
    requires Safe(h, log) && h.Possible(p, f) && NoWrap(h) && !f.Cut? && !f.CutInErase?
    ensures Safe(h.Save(p, f), Logged(h, log, p, f))
    ensures forall id :: id in log ==> id < h.nextId
  {
    hide Stored, Sealed, Finished, Torn, Fits, History.Slot, FlashSafe, Victim;
    SaveFacts(h, log, p, f);
    SlotInRange(h);
    SealedId(p, h.nextId);
    Unfold(h.flash, log, h.nextId);
    var slot, next := h.Slot(), h.Save(p, f);
    FlashStaysSafe(h, log, next.flash[slot]);
    assert next.flash == h.flash[slot := next.flash[slot]];
    var ids := HeaderIds(h)[slot := 0];
    match f
    case EraseFails =>
      assert HeaderIds(next) == HeaderIds(h);
    case WriteFails(_, _) =>
      assert HeaderIds(next) == ids;
    case Completes =>
      var r := Record(Sealed(p, h.nextId), p.points);
      assert HeaderIds(next) == ids[slot := h.nextId];
      CommitKeepsNewest(ids, slot, log, h.nextId, r);
      FlashCommits(next.flash, log, h.nextId, slot, r);
    case _ => assert false;
  }

  lemma Unfold(flash: seq<Image>, log: map<uint32, Record>, bound: int)
    requires FlashSafe(flash, log, bound)
    ensures LogBelow(log, bound) && (forall i :: 0 <= i < SLOT_COUNT ==> FlashId(flash[i]) < bound)
  {
  }

  /** Declaring the newest pour in flash committed. */
  lemma FlashCommits(flash: seq<Image>, log: map<uint32, Record>, id: uint32, slot: nat, r: Record)
    requires FlashSafe(flash, log, id + 1) && LogBelow(log, id) && slot < SLOT_COUNT
    requires Stored(flash[slot]) == Some(r) && r.header.id == id && id > 0
    ensures FlashSafe(flash, log[id := r], id + 1)
  {
    hide Stored;
    var more := log[id := r];
    assert FlashIds(flash)[slot] == id;
    forall i | 0 <= i < SLOT_COUNT && FlashId(flash[i]) in more
      ensures Stored(flash[i]) == Some(more[FlashId(flash[i])])
    {
      assert FlashIds(flash)[i] == FlashId(flash[i]);
    }
  }

  /** A cut at any point of a save leaves a flash a boot can build on, with every
      pour committed so far that must be kept. */
  lemma CutKeeps(h: History, log: map<uint32, Record>, p: Pour, f: Fate)
    requires Safe(h, log) && h.Possible(p, f) && NoWrap(h) && (f.Cut? || f.CutInErase?)
    ensures FlashSafe(h.Save(p, f).flash, log, h.nextId + 1)
  {
    hide Stored, Sealed, Finished, Torn, Fits, History.Slot, FlashSafe, Victim;
    SaveFacts(h, log, p, f);
    SlotInRange(h);
    FlashStaysSafe(h, log, h.Save(p, f).flash[h.Slot()]);
    assert h.Save(p, f).flash == h.flash[h.Slot() := h.Save(p, f).flash[h.Slot()]];
  }

  // ------------------------------------------------------------------- booting

  /** The log after a boot: a pour found in flash counts as committed, even if the
      save that wrote it did not live to report it. */
  function Adopted(flash: seq<Image>, log: map<uint32, Record>, n: nat): map<uint32, Record>
    requires n <= |flash|
  {
    if n == 0 then log
    else
      var prev := Adopted(flash, log, n - 1);
      match Stored(flash[n - 1])
      case None => prev
      case Some(r) => prev[r.header.id := r]
  }

  lemma {:induction false} AdoptedHolds(flash: seq<Image>, log: map<uint32, Record>, bound: int, n: nat)
    requires FlashSafe(flash, log, bound) && n <= SLOT_COUNT
    ensures var more := Adopted(flash, log, n);
            && (forall id :: id in log ==> id in more && more[id] == log[id])
            && (forall i :: 0 <= i < n && FlashId(flash[i]) != 0 ==>
                  FlashId(flash[i]) in more && Stored(flash[i]) == Some(more[FlashId(flash[i])]))
            && (forall id :: id in more ==> id in log || (id > 0 && id in FlashIds(flash)[..n]))
    decreases n
  {
    hide Stored, HoldsNewest, LogBelow;
    if n > 0 {
      AdoptedHolds(flash, log, bound, n - 1);
      var ids := FlashIds(flash);
      StoredIdIsPositive(flash[n - 1]);
      assert ids[n - 1] == FlashId(flash[n - 1]);
      assert ids[..n] == ids[..n - 1] + [ids[n - 1]];
      forall i | 0 <= i < n - 1 && FlashId(flash[i]) != 0
        ensures FlashId(flash[i]) != FlashId(flash[n - 1])
      {
        assert ids[i] == FlashId(flash[i]);
      }
    }
  }

  lemma StoredIdIsPositive(image: Image)
    ensures Stored(image).Some? ==> Stored(image).value.header.id > 0
  {
    hide Crc.Crc, Encode, Decode, HeaderCrc;
  }

  lemma {:induction false} ScanHolds(flash: seq<Image>, n: nat, bound: int)
    requires |flash| == SLOT_COUNT && n <= SLOT_COUNT && bound < WORD
    requires forall i :: 0 <= i < SLOT_COUNT ==> FlashId(flash[i]) < bound
    ensures forall i :: 0 <= i < n ==>
              Scanned(flash, n)[i] == match Stored(flash[i]) case None => NO_HEADER case Some(r) => r.header
    ensures forall i :: n <= i < SLOT_COUNT ==> Scanned(flash, n)[i] == NO_HEADER
    ensures NextId(flash, n) > 0 && forall i :: 0 <= i < n ==> FlashId(flash[i]) < NextId(flash, n)
    decreases n
  {
    hide Stored;
    if n > 0 {
      ScanHolds(flash, n - 1, bound);
    }
  }

  /** Booting from a safe flash gives a safe log that has lost nothing. */
  lemma {:induction false} BootKeeps(h: History, log: map<uint32, Record>, bound: int)
    requires h.Valid() && FlashSafe(h.flash, log, bound) && bound < WORD
    ensures Safe(h.Boot(), Adopted(h.flash, log, SLOT_COUNT))
  {
    hide Stored, HoldsNewest, LogBelow, Adopted;
    var more, b := Adopted(h.flash, log, SLOT_COUNT), h.Boot();
    var ids := FlashIds(h.flash);
    AdoptedHolds(h.flash, log, bound, SLOT_COUNT);
    ScanHolds(h.flash, SLOT_COUNT, bound);
    assert ids[..SLOT_COUNT] == ids;
    forall i | 0 <= i < SLOT_COUNT
      ensures b.headers[i].id == ids[i] && (ids[i] != 0 ==> ids[i] in more && more[ids[i]].header == b.headers[i])
    {
      StoredIdIsPositive(h.flash[i]);
    }
    assert HeaderIds(b) == ids;
    AdoptedBelow(log, more, ids, bound, b.nextId);
    AllInFlash(b, more);
  }

  lemma AllInFlash(b: History, more: map<uint32, Record>)
    requires b.Valid() && HeaderIds(b) == FlashIds(b.flash)
    requires Distinct(FlashIds(b.flash)) && LogBelow(more, b.nextId) && HoldsNewest(HeaderIds(b), more)
    requires forall i :: 0 <= i < SLOT_COUNT ==> FlashId(b.flash[i]) < b.nextId
    requires forall i :: 0 <= i < SLOT_COUNT && FlashId(b.flash[i]) != 0 ==>
               FlashId(b.flash[i]) in more && Stored(b.flash[i]) == Some(more[FlashId(b.flash[i])]) &&
               more[FlashId(b.flash[i])].header == b.headers[i]
    ensures Safe(b, more)
  {
    hide Stored, HoldsNewest, Distinct;
    forall i | 0 <= i < SLOT_COUNT
      ensures b.headers[i].id == FlashId(b.flash[i])
    {
      assert HeaderIds(b)[i] == FlashIds(b.flash)[i];
    }
  }

  lemma AdoptedBelow(log: map<uint32, Record>, more: map<uint32, Record>, ids: seq<uint32>, bound: int, next: uint32)
    requires |ids| == SLOT_COUNT && LogBelow(log, bound) && HoldsNewest(ids, log)
    requires forall id :: id in log ==> id in more && more[id] == log[id]
    requires forall id :: id in more ==> id in log || (id > 0 && id in ids)
    requires forall i :: 0 <= i < SLOT_COUNT ==> ids[i] < next && (ids[i] != 0 ==> ids[i] in more && more[ids[i]].header.id == ids[i])
    ensures LogBelow(more, next) && HoldsNewest(ids, more)
  {
    forall id | id in more
      ensures 0 < id < next && more[id].header.id == id
    {
      if id !in ids {
        var j :| AllGreaterBut(ids, j, id);
        assert ids[if j == 0 then 1 else 0] > id;
      } else {
        var i :| 0 <= i < SLOT_COUNT && ids[i] == id;
      }
    }
  }

  // ------------------------------------------------------------------ whole runs

  datatype Event =
    | SavePour(p: Pour, f: Fate)   // a cut is followed by the next boot
    | Reboot

  /** The device and, beside it, the pours committed so far by id. */
  datatype World = World(h: History, log: map<uint32, Record>)
  {
    predicate Allows(event: Event) {
      h.Valid() && (event.SavePour? ==> h.Possible(event.p, event.f) && NoWrap(h)) && h.nextId < WORD
    }

    function Apply(event: Event): World
      requires Allows(event)
    {
      match event
      case Reboot => World(h.Boot(), Adopted(h.flash, log, SLOT_COUNT))
      case SavePour(p, f) =>
        var after := h.Save(p, f);
        if f.Cut? || f.CutInErase? then World(after.Boot(), Adopted(after.flash, log, SLOT_COUNT))
        else World(after, Logged(h, log, p, f))
    }
  }

  ghost predicate IsRun(worlds: seq<World>, events: seq<Event>) {
    && |worlds| == |events| + 1
    && (forall i :: 0 <= i < |events| ==> worlds[i].Allows(events[i]) && worlds[i + 1] == worlds[i].Apply(events[i]))
  }

  /** A first boot: six slots with no pour in any of them, nothing committed. */
  ghost predicate FirstBoot(w: World) {
    && |w.h.flash| == SLOT_COUNT && (forall i :: 0 <= i < SLOT_COUNT ==> Stored(w.h.flash[i]) == None)
    && w.h == History(w.h.flash, NO_HEADERS, 1).Boot() && w.log == map[]
  }

  lemma ApplyKeeps(w: World, event: Event)
    requires Safe(w.h, w.log) && w.Allows(event)
    ensures Safe(w.Apply(event).h, w.Apply(event).log)
    ensures forall id :: id in w.log ==> id in w.Apply(event).log && w.Apply(event).log[id] == w.log[id]
  {
    hide Stored, Sealed, History.Save, History.Boot, FlashSafe, Adopted;
    SaveValid(w.h, event);
    match event
    case Reboot =>
      BootKeeps(w.h, w.log, w.h.nextId);
      AdoptedHolds(w.h.flash, w.log, w.h.nextId, SLOT_COUNT);
    case SavePour(p, f) =>
      if f.Cut? || f.CutInErase? {
        CutKeeps(w.h, w.log, p, f);
        BootKeeps(w.h.Save(p, f), w.log, w.h.nextId + 1);
        AdoptedHolds(w.h.Save(p, f).flash, w.log, w.h.nextId + 1, SLOT_COUNT);
      } else {
        SaveKeeps(w.h, w.log, p, f);
      }
  }

  lemma SaveValid(h: History, event: Event)
    requires h.Valid() && (event.SavePour? ==> h.Possible(event.p, event.f))
    ensures event.SavePour? ==> h.Save(event.p, event.f).Valid()
  {
    hide Stored, Sealed, Finished, Torn, Fits;
  }

  lemma {:induction false} RunIsSafe(worlds: seq<World>, events: seq<Event>, n: nat)
    requires IsRun(worlds, events) && FirstBoot(worlds[0]) && n <= |events|
    ensures Safe(worlds[n].h, worlds[n].log)
    decreases n
  {
    hide Stored, World.Apply, Safe;
    if n == 0 {
      FirstBootIsSafe(worlds[0]);
    } else {
      RunIsSafe(worlds, events, n - 1);
      ApplyKeeps(worlds[n - 1], events[n - 1]);
    }
  }

  lemma FirstBootIsSafe(w: World)
    requires FirstBoot(w)
    ensures Safe(w.h, w.log)
  {
    hide Stored;
    ScanHolds(w.h.flash, SLOT_COUNT, 1);
  }

  // ------------------------------------------------------ where records come from

  /** The record a save writes. */
  function Attempt(h: History, p: Pour): Record
    requires p.Valid()
  {
    Record(Sealed(p, h.nextId), p.points)
  }

  /** A pour in flash that is not in the log can only be in the slot that is next to
      be overwritten; it is a record of `tried`, newer than everything logged. */
  ghost predicate OnlyOrphan(flash: seq<Image>, slot: nat, log: map<uint32, Record>, tried: set<Record>)
    requires |flash| == SLOT_COUNT
  {
    forall i :: 0 <= i < SLOT_COUNT && FlashId(flash[i]) != 0 && FlashId(flash[i]) !in log ==>
      i == slot && IsNewest(flash[i], log, tried)
  }

  ghost predicate IsNewest(image: Image, log: map<uint32, Record>, tried: set<Record>) {
    Stored(image).Some? && Stored(image).value in tried && forall id :: id in log ==> id < FlashId(image)
  }

  ghost predicate LoggedFrom(log: map<uint32, Record>, tried: set<Record>) { forall id :: id in log ==> log[id] in tried }

  ghost predicate Traced(h: History, log: map<uint32, Record>, tried: set<Record>) {
    h.Valid() && LoggedFrom(log, tried) && OnlyOrphan(h.flash, h.Slot(), log, tried)
  }

  lemma {:induction false} FirstEmpty(headers: seq<Header>, slot: nat, n: nat)
    requires slot < n <= |headers| && headers[slot].id == 0 && forall i :: 0 <= i < slot ==> headers[i].id > 0
    ensures Victim(headers, n) == slot
    decreases n
  {
    if slot < n - 1 {
      FirstEmpty(headers, slot, n - 1);
    }
  }

  /** The slot a failed save was working on is the next one again. */
  lemma SameVictim(h: History)
    requires h.Valid()
    ensures h.(headers := h.headers[h.Slot() := NO_HEADER]).Slot() == h.Slot()
  {
    hide Victim;
    FirstEmpty(h.headers[h.Slot() := NO_HEADER], h.Slot(), SLOT_COUNT);
  }

  /** What a save that is not complete leaves in its slot. */
  lemma SlotIsNewest(h: History, log: map<uint32, Record>, tried: set<Record>, p: Pour, f: Fate)
    requires Safe(h, log) && Traced(h, log, tried) && h.Possible(p, f) && !f.Completes?
    ensures var image := h.Save(p, f).flash[h.Slot()];
            FlashId(image) != 0 && FlashId(image) !in log ==> IsNewest(image, log, tried + {Attempt(h, p)})
  {
    hide Stored, Sealed, Finished, Torn, Fits, History.Slot, Victim, FlashSafe, HoldsNewest;
    SaveFacts(h, log, p, f);
    SlotInRange(h);
    Unfold(h.flash, log, h.nextId);
    FinishedSlot(p, h.nextId);
    if f.WriteFails? || f.Cut? {
      TornSlot(p, h.nextId, f.stage, f.torn);
    }
  }

  lemma OthersKeepOrphans(flash: seq<Image>, slot: nat, image: Image, log: map<uint32, Record>, more: map<uint32, Record>,
                          tried: set<Record>, all: set<Record>)
    requires |flash| == SLOT_COUNT && slot < SLOT_COUNT && OnlyOrphan(flash, slot, log, tried)
    requires forall id :: id in log ==> id in more
    requires FlashId(image) != 0 && FlashId(image) !in more ==> IsNewest(image, more, all)
    ensures OnlyOrphan(flash[slot := image], slot, more, all)
  {
    hide Stored;
  }

  /** A save keeps every record traced, whether it completes, fails or is cut. */
  lemma SaveTraced(h: History, log: map<uint32, Record>, tried: set<Record>, p: Pour, f: Fate)
    requires Safe(h, log) && Traced(h, log, tried) && h.Possible(p, f)
    ensures var n, all := h.Save(p, f), tried + {Attempt(h, p)};
            && n.Valid() && LoggedFrom(Logged(h, log, p, f), all)
            && OnlyOrphan(n.flash, h.Slot(), Logged(h, log, p, f), all)
            && (!f.Cut? && !f.CutInErase? ==> Traced(n, Logged(h, log, p, f), all))
  {
    hide Stored, Sealed, Finished, Torn, Fits, History.Slot, Victim, FlashSafe, HoldsNewest, OnlyOrphan, IsNewest;
    var n, all := h.Save(p, f), tried + {Attempt(h, p)};
    SlotInRange(h);
    SaveValid(h, SavePour(p, f));
    SaveFacts(h, log, p, f);
    var slot, more := h.Slot(), Logged(h, log, p, f);
    var image := n.flash[slot];
    assert n.flash == h.flash[slot := image];
    SealedId(p, h.nextId);
    if !f.Completes? {
      SlotIsNewest(h, log, tried, p, f);
    }
    OthersKeepOrphans(h.flash, slot, image, log, more, tried, all);
    if f.EraseFails? || f.WriteFails? {
      SlotAfterSave(h, p, f);
    } else if f.Completes? {
      AllLogged(n.flash, slot, n.Slot(), more, all);
    }
  }

  lemma SlotAfterSave(h: History, p: Pour, f: Fate)
    requires h.Valid() && h.Possible(p, f) && (f.EraseFails? || f.WriteFails?)
    ensures h.Save(p, f).Valid() && h.Save(p, f).Slot() == h.Slot()
  {
    hide Stored, Sealed, Finished, Torn, Fits, Victim;
    SameVictim(h);
  }

  lemma AllLogged(flash: seq<Image>, slot: nat, other: nat, log: map<uint32, Record>, tried: set<Record>)
    requires |flash| == SLOT_COUNT && slot < SLOT_COUNT && OnlyOrphan(flash, slot, log, tried)
    requires FlashId(flash[slot]) in log
    ensures OnlyOrphan(flash, other, log, tried)
  {
    hide Stored, IsNewest;
  }

  /** What a boot adopts: at most one pour, a record of `tried` newer than all. */
  lemma {:induction false} AdoptTraced(flash: seq<Image>, slot: nat, log: map<uint32, Record>, bound: int, tried: set<Record>)
    requires FlashSafe(flash, log, bound) && OnlyOrphan(flash, slot, log, tried) && LoggedFrom(log, tried)
    ensures var more := Adopted(flash, log, SLOT_COUNT);
            && LoggedFrom(more, tried) && OneAbove(log, more)
            && (forall i :: 0 <= i < SLOT_COUNT && FlashId(flash[i]) != 0 ==> FlashId(flash[i]) in more)
  {
    hide Stored, Adopted, HoldsNewest, LogBelow;
    AdoptedHolds(flash, log, bound, SLOT_COUNT);
    var more, ids := Adopted(flash, log, SLOT_COUNT), FlashIds(flash);
    assert ids[..SLOT_COUNT] == ids;
    forall id | id in more && id !in log
      ensures slot < SLOT_COUNT && id == ids[slot] && more[id] in tried && forall prior :: prior in log ==> prior < id
    {
      var i :| 0 <= i < SLOT_COUNT && ids[i] == id;
      assert FlashId(flash[i]) == id && IsNewest(flash[i], log, tried);
    }
  }

  /** The log has grown by at most one pour, newer than all before. */
  ghost predicate OneAbove(log: map<uint32, Record>, more: map<uint32, Record>) {
    && (forall id :: id in log ==> id in more && more[id] == log[id])
    && (forall id, prior :: id in more && id !in log && prior in log ==> prior < id)
    && (forall id, other :: id in more && other in more && id !in log && other !in log ==> id == other)
  }

  lemma {:induction false} BootTraced(h: History, slot: nat, log: map<uint32, Record>, bound: int, tried: set<Record>)
    requires h.Valid() && FlashSafe(h.flash, log, bound) && OnlyOrphan(h.flash, slot, log, tried) && LoggedFrom(log, tried)
    ensures var more := Adopted(h.flash, log, SLOT_COUNT); Traced(h.Boot(), more, tried) && OneAbove(log, more)
  {
    hide Stored, Adopted, History.Slot, FlashSafe, OneAbove;
    AdoptTraced(h.flash, slot, log, bound, tried);
  }

  /** The records the first `n` events tried to save. */
  ghost function Tried(worlds: seq<World>, events: seq<Event>, n: nat): set<Record>
    requires IsRun(worlds, events) && n <= |events|
  {
    if n == 0 then {}
    else
      var before := Tried(worlds, events, n - 1);
      match events[n - 1]
      case Reboot => before
      case SavePour(p, _) => before + {Attempt(worlds[n - 1].h, p)}
  }

  lemma ApplyTraced(w: World, event: Event, tried: set<Record>)
    requires Safe(w.h, w.log) && Traced(w.h, w.log, tried) && w.Allows(event)
    ensures var all := if event.SavePour? then tried + {Attempt(w.h, event.p)} else tried;
            var n := w.Apply(event);
            Traced(n.h, n.log, all) && OneAbove(w.log, n.log)
  {
    hide Stored, Sealed, History.Save, History.Boot, History.Slot, FlashSafe, Adopted, Traced, OneAbove;
    Untrace(w.h, w.log, tried);
    match event
    case Reboot => BootTraced(w.h, w.h.Slot(), w.log, w.h.nextId, tried);
    case SavePour(p, f) =>
      SaveTraced(w.h, w.log, tried, p, f);
      if f.Cut? || f.CutInErase? {
        CutKeeps(w.h, w.log, p, f);
        BootTraced(w.h.Save(p, f), w.h.Slot(), w.log, w.h.nextId + 1, tried + {Attempt(w.h, p)});
      } else {
        LoggedIsAbove(w.h, w.log, p, f);
      }
  }

  lemma Untrace(h: History, log: map<uint32, Record>, tried: set<Record>)
    requires Traced(h, log, tried)
    ensures h.Valid() && LoggedFrom(log, tried) && OnlyOrphan(h.flash, h.Slot(), log, tried)
  {
  }

  lemma LoggedIsAbove(h: History, log: map<uint32, Record>, p: Pour, f: Fate)
    requires Safe(h, log) && h.Possible(p, f)
    ensures OneAbove(log, Logged(h, log, p, f))
  {
    hide Stored, Sealed, History.Slot;
  }

  lemma {:induction false} RunIsTraced(worlds: seq<World>, events: seq<Event>, n: nat)
    requires IsRun(worlds, events) && FirstBoot(worlds[0]) && n <= |events|
    ensures Traced(worlds[n].h, worlds[n].log, Tried(worlds, events, n))
    decreases n
  {
    hide Stored, World.Apply, Safe, Traced, Attempt;
    if n == 0 {
      FirstBootIsTraced(worlds[0]);
    } else {
      RunIsTraced(worlds, events, n - 1);
      RunIsSafe(worlds, events, n - 1);
      ApplyTraced(worlds[n - 1], events[n - 1], Tried(worlds, events, n - 1));
    }
  }

  lemma FirstBootIsTraced(w: World)
    requires FirstBoot(w)
    ensures Traced(w.h, w.log, {})
  {
    hide Stored;
  }

  /** The record is what the save at event `k` was to write. */
  ghost predicate SavedAt(worlds: seq<World>, events: seq<Event>, k: int, r: Record)
    requires IsRun(worlds, events)
  {
    0 <= k < |events| && events[k].SavePour? && r == Attempt(worlds[k].h, events[k].p)
  }

  /** One of the first `n` events was a save of exactly this record. */
  ghost predicate WasSaved(worlds: seq<World>, events: seq<Event>, n: nat, r: Record)
    requires IsRun(worlds, events)
  {
    exists k :: 0 <= k < n && SavedAt(worlds, events, k, r)
  }

  lemma {:induction false} TriedIsSaved(worlds: seq<World>, events: seq<Event>, n: nat, r: Record)
    requires IsRun(worlds, events) && n <= |events| && r in Tried(worlds, events, n)
    ensures WasSaved(worlds, events, n, r)
    decreases n
  {
    hide World.Apply, Attempt;
    if events[n - 1].SavePour? && r == Attempt(worlds[n - 1].h, events[n - 1].p) {
      assert SavedAt(worlds, events, n - 1, r);
    } else {
      TriedIsSaved(worlds, events, n - 1, r);
    }
  }

  /** Commits, by a save that reports success or by a boot that finds a pour in
      flash: each event commits at most one pour, under an id greater than every
      one committed before, also across reboots; and what is in the log for it is
      exactly what a save of the run was to write, header and rows. */
  lemma CommitsInOrder(worlds: seq<World>, events: seq<Event>, n: nat, id: uint32)
    requires IsRun(worlds, events) && FirstBoot(worlds[0]) && n < |events|
    requires id in worlds[n + 1].log
    ensures id !in worlds[n].log ==> forall prior :: prior in worlds[n].log ==> prior < id
    ensures forall other :: id !in worlds[n].log && other in worlds[n + 1].log && other !in worlds[n].log ==> other == id
    ensures forall prior :: prior in worlds[n].log ==> prior in worlds[n + 1].log && worlds[n + 1].log[prior] == worlds[n].log[prior]
    ensures WasSaved(worlds, events, n + 1, worlds[n + 1].log[id])
  {
    hide Stored, World.Apply, Safe, Traced, Attempt;
    RunIsSafe(worlds, events, n);
    RunIsTraced(worlds, events, n);
    RunIsTraced(worlds, events, n + 1);
    ApplyTraced(worlds[n], events[n], Tried(worlds, events, n));
    Untrace(worlds[n + 1].h, worlds[n + 1].log, Tried(worlds, events, n + 1));
    TriedIsSaved(worlds, events, n + 1, worlds[n + 1].log[id]);
  }

  /** The committed pours with a greater id. */
  function Newer(log: map<uint32, Record>, id: uint32): set<uint32> {
    set x | x in log && x > id
  }

  /** Crash consistency. In every run from a first boot, through saves that work
      or fail, power cuts inside the erase, the rows, the header or the magic
      word, and reboots, each of the five newest committed pours is in flash, its
      header and its rows byte for byte what a save of this run was to write. */
  lemma NewestFiveSurvive(worlds: seq<World>, events: seq<Event>, n: nat, id: uint32)
    requires IsRun(worlds, events) && FirstBoot(worlds[0]) && n <= |events|
    requires id in worlds[n].log && |Newer(worlds[n].log, id)| < 5
    ensures |worlds[n].h.flash| == SLOT_COUNT
    ensures exists i :: 0 <= i < SLOT_COUNT && Stored(worlds[n].h.flash[i]) == Some(worlds[n].log[id])
    ensures WasSaved(worlds, events, n, worlds[n].log[id])
  {
    hide Stored, Attempt;
    RunIsSafe(worlds, events, n);
    RunIsTraced(worlds, events, n);
    TriedIsSaved(worlds, events, n, worlds[n].log[id]);
    var h, log := worlds[n].h, worlds[n].log;
    var ids := HeaderIds(h);
    if id in ids {
      var i :| 0 <= i < SLOT_COUNT && ids[i] == id;
      assert FlashId(h.flash[i]) == id;
    } else {
      var j :| AllGreaterBut(ids, j, id);
      FiveNewer(h, log, j, id);
      assert false;
    }
  }

  lemma FiveNewer(h: History, log: map<uint32, Record>, j: nat, id: uint32)
    requires Safe(h, log) && AllGreaterBut(HeaderIds(h), j, id)
    ensures |Newer(log, id)| >= 5
  {
    hide Stored, FlashSafe, Distinct;
    HeadersDistinct(h, log);
    forall i | 0 <= i < SLOT_COUNT && i != j
      ensures HeaderIds(h)[i] in Newer(log, id)
    {
      assert h.headers[i].id == HeaderIds(h)[i] > id;
    }
    AllButOneFit(HeaderIds(h), j, Newer(log, id));
  }

  lemma HeadersDistinct(h: History, log: map<uint32, Record>)
    requires Safe(h, log)
    ensures Distinct(HeaderIds(h))
  {
    hide Stored, HoldsNewest, LogBelow;
    assert forall i :: 0 <= i < SLOT_COUNT ==> HeaderIds(h)[i] == 0 || HeaderIds(h)[i] == FlashIds(h.flash)[i];
  }

  /** Six slots, five of them with different ids of a set: the set has five. */
  lemma AllButOneFit(ids: seq<uint32>, j: nat, s: set<uint32>)
    requires |ids| == SLOT_COUNT && j < SLOT_COUNT && Distinct(ids)
    requires forall i :: 0 <= i < SLOT_COUNT && i != j ==> ids[i] in s && ids[i] != 0
    ensures |s| >= 5
  {
    var others := ids[..j] + ids[j + 1..];
    assert forall k :: 0 <= k < |others| ==> others[k] == ids[if k < j then k else k + 1];
    DistinctFit(others, s);
  }

  lemma {:induction false} DistinctFit(xs: seq<uint32>, s: set<uint32>)
    requires (forall x :: x in xs ==> x in s) && forall a, b :: 0 <= a < b < |xs| ==> xs[a] != xs[b]
    ensures |xs| <= |s|
    decreases |xs|
  {
    if xs != [] {
      var init, last := xs[..|xs| - 1], xs[|xs| - 1];
      assert forall x :: x in init ==> x in xs && x != last;
      DistinctFit(init, s - {last});
    }
  }

  /** What a committed pour is: the save that reported success put exactly its rows
      and its summary into the log, under an id greater than all before. */
  lemma SuccessIsCommitted(w: World, p: Pour)
    requires Safe(w.h, w.log) && w.Allows(SavePour(p, Completes))
    ensures var log, id := w.Apply(SavePour(p, Completes)).log, w.h.nextId;
            && (forall prior :: prior in w.log ==> prior < id)
            && log.Keys == w.log.Keys + {id}
            && log[id].points == p.points && log[id].header.count == p.Count()
            && log[id].header.duration == p.duration && log[id].header.rest == p.rest
  {
    hide Stored, HeaderCrc, Finished;
    SaveKeeps(w.h, w.log, p, Completes);
  }

  /** The ids are 32-bit. A save that completes is found again by the next boot
      exactly when its id is not the 0 a wrapped counter hands out: until the
      counter wraps every save is, and the save after the wrap never is. */
  lemma SavedUnlessIdIsZero(h: History, p: Pour)
    requires h.Valid() && p.Valid()
    ensures h.Slot() < SLOT_COUNT
    ensures Stored(h.Save(p, Completes).flash[h.Slot()]).Some? <==> h.nextId != 0
    ensures h.nextId == WORD - 1 ==> h.Save(p, Completes).nextId == 0
  {
    hide Stored, Sealed, Finished;
    FinishedSlot(p, h.nextId);
  }

  /** After a boot the next id is one more than the greatest in flash, and 1 without any;
      an id of 2^32 - 1, after which the counter is 0, is left out. */
  lemma {:induction false} NextIdIsNext(flash: seq<Image>, n: nat)
    requires |flash| == SLOT_COUNT && n <= SLOT_COUNT
    ensures var next := NextId(flash, n);
            && (forall i :: 0 <= i < n ==> FlashId(flash[i]) < next || FlashId(flash[i]) == 0xFFFF_FFFF)
            && (next == 1 || exists i :: 0 <= i < n && FlashId(flash[i]) + 1 == next)
    decreases n
  {
    hide Stored;
    if n > 0 {
      NextIdIsNext(flash, n - 1);
      StoredIdIsPositive(flash[n - 1]);
    }
  }

  // ----------------------------------------------------------- what is displayed

  predicate Descending(s: seq<Header>) {
    forall i, j :: 0 <= i < j < |s| ==> s[i].id > s[j].id
  }

  lemma {:induction false} InsertSorts(h: Header, s: seq<Header>)
    requires Descending(s) && forall x: Header :: x in s ==> x.id != h.id
    ensures Descending(Insert(h, s))
    ensures forall x: Header :: x in Insert(h, s) <==> x == h || x in s
    decreases |s|
  {
    InsertHas(h, s);
    if s != [] && h.id <= s[0].id {
      InsertSorts(h, s[1..]);
      InsertHas(h, s[1..]);
      var rest := Insert(h, s[1..]);
      forall i | 0 <= i < |rest|
        ensures s[0].id > rest[i].id
      {
        assert rest[i] in rest;
      }
    }
  }

  lemma {:induction false} InsertHas(h: Header, s: seq<Header>)
    ensures forall x: Header :: x in Insert(h, s) <==> x == h || x in s
    decreases |s|
  {
    if s != [] && h.id <= s[0].id {
      InsertHas(h, s[1..]);
      assert s == [s[0]] + s[1..];
    }
  }

  lemma {:induction false} CollectedSorts(headers: seq<Header>, n: nat)
    requires n <= |headers|
    requires forall i, j :: 0 <= i < j < |headers| && headers[i].id != 0 ==> headers[i].id != headers[j].id
    ensures Descending(Collected(headers, n))
    ensures forall x: Header :: x in Collected(headers, n) <==> x.id != 0 && x in headers[..n]
    decreases n
  {
    if n > 0 {
      CollectedSorts(headers, n - 1);
      assert headers[..n] == headers[..n - 1] + [headers[n - 1]];
      if headers[n - 1].id != 0 {
        InsertSorts(headers[n - 1], Collected(headers, n - 1));
      }
    }
  }

  lemma {:induction false} DescendingCount(s: seq<Header>, k: nat, ids: set<uint32>)
    requires Descending(s) && k <= |s| && ids == set i | 0 <= i < k :: s[i].id
    ensures |ids| == k
    decreases k
  {
    if k > 0 {
      var less := set i | 0 <= i < k - 1 :: s[i].id;
      assert ids == less + {s[k - 1].id};
      DescendingCount(s, k - 1, less);
    }
  }

  /** The history list shows exactly the five newest committed pours, newest first. */
  lemma ListShowsNewestFive(h: History, log: map<uint32, Record>)
    requires Safe(h, log)
    ensures Descending(Listed(h.headers)) && |Listed(h.headers)| <= 5
    ensures forall x: Header :: x in Listed(h.headers) <==> x.id in log && log[x.id].header == x && |Newer(log, x.id)| < 5
  {
    hide Stored, Collected;
    var all := Collected(h.headers, SLOT_COUNT);
    assert h.headers[..SLOT_COUNT] == h.headers;
    forall i, j | 0 <= i < j < SLOT_COUNT && h.headers[i].id != 0
      ensures h.headers[i].id != h.headers[j].id
    {
      assert FlashIds(h.flash)[i] == h.headers[i].id;
      assert h.headers[j].id != 0 ==> FlashIds(h.flash)[j] == h.headers[j].id;
    }
    CollectedSorts(h.headers, SLOT_COUNT);
    forall x: Header | x in all
      ensures x.id in log && log[x.id].header == x
    {
      var i :| 0 <= i < SLOT_COUNT && h.headers[i] == x;
    }
    forall k | 0 <= k < |all|
      ensures |Newer(log, all[k].id)| < 5 <==> k < 5
    {
      RankInLog(h, log, all, k);
    }
    forall x: Header | x.id in log && log[x.id].header == x && |Newer(log, x.id)| < 5
      ensures x in all
    {
      if x.id !in HeaderIds(h) {
        var j :| AllGreaterBut(HeaderIds(h), j, x.id);
        FiveNewer(h, log, j, x.id);
        assert false;
      }
      var i :| 0 <= i < SLOT_COUNT && HeaderIds(h)[i] == x.id;
      assert h.headers[i] == x;
    }
  }

  /** The position of a pour in the sorted list is the number of newer ones in the
      log, as long as that is below five. */
  lemma RankInLog(h: History, log: map<uint32, Record>, all: seq<Header>, k: nat)
    requires Safe(h, log) && Descending(all) && k < |all|
    requires forall x: Header :: x in all ==> x.id in log
    requires forall x: Header :: x in all <==> x.id != 0 && x in h.headers
    ensures |Newer(log, all[k].id)| < 5 <==> k < 5
  {
    hide Stored, FlashSafe;
    var id := all[k].id;
    var above := set i | 0 <= i < k :: all[i].id;
    DescendingCount(all, k, above);
    assert above <= Newer(log, id);
    Subsets(above, Newer(log, id));
    if k < 5 {
      forall x | x in Newer(log, id)
        ensures x in above
      {
        InHeaders(h, log, all, k, x);
        var m :| 0 <= m < |all| && all[m].id == x;
        assert m < k;
      }
      assert above == Newer(log, id);
    }
  }

  lemma InHeaders(h: History, log: map<uint32, Record>, all: seq<Header>, k: nat, x: uint32)
    requires Safe(h, log) && Descending(all) && k < |all| && k < 5
    requires forall y: Header :: y in all <==> y.id != 0 && y in h.headers
    requires x in log && x > all[k].id
    ensures exists m :: 0 <= m < |all| && all[m].id == x
  {
    hide Stored, FlashSafe;
    if x in HeaderIds(h) {
      var i :| 0 <= i < SLOT_COUNT && HeaderIds(h)[i] == x;
      assert h.headers[i] in all;
    } else {
      var j :| AllGreaterBut(HeaderIds(h), j, x);
      FiveAbove(h, log, all, j, k);
      assert false;
    }
  }

  lemma Subsets(a: set<uint32>, b: set<uint32>)
    requires a <= b
    ensures |a| <= |b|
  {
    assert a + (b - a) == b;
  }

  /** Headers above some id in all slots but one fill the first five places. */
  lemma FiveAbove(h: History, log: map<uint32, Record>, all: seq<Header>, j: nat, k: nat)
    requires Safe(h, log) && Descending(all) && k < |all|
    requires forall x: Header :: x in all <==> x.id != 0 && x in h.headers
    requires AllGreaterBut(HeaderIds(h), j, all[k].id)
    ensures k >= 5
  {
    hide Stored, FlashSafe, Distinct, HoldsNewest;
    var above := set i | 0 <= i < k :: all[i].id;
    DescendingCount(all, k, above);
    HeadersDistinct(h, log);
    forall i | 0 <= i < SLOT_COUNT && i != j
      ensures HeaderIds(h)[i] in above
    {
      assert HeaderIds(h)[i] == h.headers[i].id && h.headers[i] in all;
      var n :| 0 <= n < |all| && all[n] == h.headers[i];
      assert n < k;
    }
    AllButOneFit(HeaderIds(h), j, above);
  }
}
