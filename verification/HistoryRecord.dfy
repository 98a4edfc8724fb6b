/** The byte layout of one history slot: a 212-byte header, then the rows. The
    settings, firmware name, reason and hold flag of the summary are carried as
    the 180 bytes `rest`; words are little-endian. */
module HistoryRecord {
  import opened Clock
  import opened Crc

  const SLOT_COUNT: nat := 6
  const SLOT_SIZE: nat := 0x4000
  const HEADER_SIZE: nat := 212
  const POINT_SIZE: nat := 24
  const MAX_POINTS: nat := 242
  const MAGIC: uint32 := 0x504F_5552
  const FORMAT: uint32 := 1
  const BLOCK: nat := 512

  datatype Option<+T> = None | Some(value: T)

  function Filled(n: nat, b: byte): (s: seq<byte>)
    ensures |s| == n && forall i :: 0 <= i < n ==> s[i] == b
  {
    seq(n, i => b)
  }

  type Rest = s: seq<byte> | |s| == 180 witness Filled(180, 0)

  datatype Header = Header(
    magic: uint32, format: uint32, count: uint32, dataCrc: uint32, headerCrc: uint32,
    id: uint32, duration: uint32, samples: uint32, rest: Rest)

  type Image = s: seq<byte> | |s| == SLOT_SIZE witness Filled(SLOT_SIZE, 0xFF)

  function Bytes(n: uint32): (b: seq<byte>)
    ensures |b| == 4
  {
    [n % 0x100, n / 0x100 % 0x100, n / 0x1_0000 % 0x100, n / 0x100_0000]
  }

  function WordAt(b: seq<byte>, at: nat): uint32
    requires at + 4 <= |b|
  {
    b[at] as int + 0x100 * (b[at + 1] as int) + 0x1_0000 * (b[at + 2] as int) + 0x100_0000 * (b[at + 3] as int)
  }

  lemma WordAtBytes(n: uint32)
    ensures WordAt(Bytes(n), 0) == n
  {
    var a, b, c := n / 0x100, n / 0x1_0000, n / 0x100_0000;
    assert n == 0x100 * a + n % 0x100;
    assert a == 0x100 * b + a % 0x100;
    assert b == 0x100 * c + b % 0x100;
  }

  function Encode(h: Header): (b: seq<byte>)
    ensures |b| == HEADER_SIZE
  {
    Bytes(h.magic) + Bytes(h.format) + Bytes(h.count) + Bytes(h.dataCrc) + Bytes(h.headerCrc) +
    Bytes(h.id) + Bytes(h.duration) + Bytes(h.samples) + h.rest
  }

  function Decode(b: seq<byte>): Header
    requires |b| == HEADER_SIZE
  {
    Header(WordAt(b, 0), WordAt(b, 4), WordAt(b, 8), WordAt(b, 12), WordAt(b, 16),
           WordAt(b, 20), WordAt(b, 24), WordAt(b, 28), b[32..])
  }

  lemma WordInside(b: seq<byte>, at: nat, n: uint32)
    requires at + 4 <= |b| && b[at..at + 4] == Bytes(n)
    ensures WordAt(b, at) == n
  {
    var w := b[at..at + 4];
    assert w[0] == b[at] && w[1] == b[at + 1] && w[2] == b[at + 2] && w[3] == b[at + 3];
    WordAtBytes(n);
  }

  /** A header survives being written and read back. */
  lemma HeaderRoundTrip(h: Header)
    ensures Decode(Encode(h)) == h
  {
    hide Bytes, WordAt;
    var b := Encode(h);
    WordInside(b, 0, h.magic);
    WordInside(b, 4, h.format);
    WordInside(b, 8, h.count);
    WordInside(b, 12, h.dataCrc);
    WordInside(b, 16, h.headerCrc);
    WordInside(b, 20, h.id);
    WordInside(b, 24, h.duration);
    WordInside(b, 28, h.samples);
    assert b[32..] == h.rest;
  }

  /** The stored format: eight little-endian words and the rest of the summary. */
  lemma HeaderLayout(h: Header, i: nat)
    requires i < 8
    ensures var words := [h.magic, h.format, h.count, h.dataCrc, h.headerCrc, h.id, h.duration, h.samples];
            && Encode(h)[4 * i..4 * i + 4] == Bytes(words[i]) && Encode(h)[32..] == h.rest
            && var b := Bytes(words[i]);
               b[0] as int + 256 * (b[1] as int + 256 * (b[2] as int + 256 * b[3] as int)) == words[i]
  {
    hide Bytes;
    LittleEndian([h.magic, h.format, h.count, h.dataCrc, h.headerCrc, h.id, h.duration, h.samples][i]);
  }

  lemma LittleEndian(n: uint32)
    ensures var b := Bytes(n); b[0] as int + 256 * (b[1] as int + 256 * (b[2] as int + 256 * b[3] as int)) == n
  {
    WordAtBytes(n);
  }

  function HeaderCrc(h: Header): uint32 { Crc.Crc(Encode(h.(headerCrc := 0)), INITIAL) }

  predicate ValidHeader(h: Header) {
    h.magic == MAGIC && h.format == FORMAT && 0 < h.count <= MAX_POINTS && h.samples == h.count && h.id > 0 &&
    HeaderCrc(h) == h.headerCrc
  }

  function HeaderOf(image: Image): Header { Decode(image[..HEADER_SIZE]) }

  function Payload(image: Image, count: nat): seq<byte>
    requires count <= MAX_POINTS
  {
    image[HEADER_SIZE..HEADER_SIZE + count * POINT_SIZE]
  }

  datatype Record = Record(header: Header, points: seq<byte>)

  /** The pour a slot holds, as the boot check sees it. */
  function Stored(image: Image): Option<Record> {
    var h := HeaderOf(image);
    if ValidHeader(h) && Crc.Crc(Payload(image, h.count), INITIAL) == h.dataCrc
    then Some(Record(h, Payload(image, h.count)))
    else None
  }

  lemma BytesOfWord(b: seq<byte>, at: nat)
    requires at + 4 <= |b|
    ensures Bytes(WordAt(b, at)) == b[at..at + 4]
  {
    var p, q, r, t := b[at] as int, b[at + 1] as int, b[at + 2] as int, b[at + 3] as int;
    var n := p + 0x100 * (q + 0x100 * (r + 0x100 * t));
    assert n % 0x100 == p && n / 0x100 == q + 0x100 * (r + 0x100 * t);
    assert n / 0x1_0000 == r + 0x100 * t && n / 0x100_0000 == t;
  }

  /** The header checksum is taken over the header bytes with its own field zero. */
  lemma HeaderCrcIsOver(b: seq<byte>)
    requires |b| == 212
    ensures HeaderCrc(Decode(b)) == Crc.Crc(b[..16] + [0, 0, 0, 0] + b[20..], 0xFFFF_FFFF)
  {
    hide Bytes, WordAt, Crc.Crc;
    BytesOfWord(b, 0);
    BytesOfWord(b, 4);
    BytesOfWord(b, 8);
    BytesOfWord(b, 12);
    BytesOfWord(b, 20);
    BytesOfWord(b, 24);
    BytesOfWord(b, 28);
    assert Bytes(0) == [0, 0, 0, 0] by { ZeroWord(); }
    assert Encode(Decode(b).(headerCrc := 0)) == b[..16] + [0, 0, 0, 0] + b[20..];
  }

  lemma ZeroWord()
    ensures Bytes(0) == [0, 0, 0, 0]
  {
  }

  /** A slot holds a pour if and only if its first word is the magic one, its format 1,
      its row count between 1 and 242 and there twice, its id not 0, and both checksums
      are right: the header's over all of it, its own field zero, and the rows'. */
  lemma StoredExactlyWhen(image: Image)
    ensures Stored(image).Some? <==>
            var count := WordAt(image, 8);
            && WordAt(image, 0) == 0x504F_5552 && WordAt(image, 4) == 1 && 1 <= count <= 242
            && WordAt(image, 28) == count && WordAt(image, 20) != 0
            && WordAt(image, 16) == Crc.Crc(image[..16] + [0, 0, 0, 0] + image[20..212], 0xFFFF_FFFF)
            && WordAt(image, 12) == Crc.Crc(image[212..212 + count * 24], 0xFFFF_FFFF)
    ensures Stored(image).Some? ==>
              var r := Stored(image).value;
              r.header.id == WordAt(image, 20) && r.points == image[212..212 + WordAt(image, 8) * 24]
  {
    hide HeaderCrc, Crc.Crc;
    var b := image[..HEADER_SIZE];
    HeaderCrcIsOver(b);
    assert b[..16] == image[..16] && b[20..] == image[20..212];
    SameWord(image, 0);
    SameWord(image, 4);
    SameWord(image, 8);
    SameWord(image, 12);
    SameWord(image, 16);
    SameWord(image, 20);
    SameWord(image, 28);
  }

  lemma SameWord(image: Image, at: nat)
    requires at + 4 <= HEADER_SIZE
    ensures WordAt(image[..HEADER_SIZE], at) == WordAt(image, at)
  {
  }

  /** The boot check of one slot, reading the rows in blocks of 512 bytes. */
  method CheckSlot(image: Image) returns (found: Option<Header>)
    ensures found == match Stored(image) case None => None case Some(r) => Some(r.header)
  {
    hide Crc.Crc, Encode, Decode, HeaderCrc;
    var h := HeaderOf(image);
    if !ValidHeader(h) {
      return None;
    }
    var check := INITIAL;
    var bytes, offset := h.count * POINT_SIZE, HEADER_SIZE;
    var end := HEADER_SIZE + h.count * POINT_SIZE;
    assert image[HEADER_SIZE..offset] == [];
    NothingFed();
    while bytes != 0
      invariant HEADER_SIZE <= offset <= end && bytes == end - offset
      invariant check == Crc.Crc(image[HEADER_SIZE..offset], INITIAL)
      decreases bytes
    {
      var n := if bytes < BLOCK then bytes else BLOCK;
      var next := Compute(image[offset..offset + n], check);
      CrcJoins(image[HEADER_SIZE..offset], image[offset..offset + n], INITIAL);
      assert image[HEADER_SIZE..offset] + image[offset..offset + n] == image[HEADER_SIZE..offset + n];
      check, offset, bytes := next, offset + n, bytes - n;
    }
    found := if check == h.dataCrc then Some(h) else None;
  }

  lemma NothingFed()
    ensures Crc.Crc([], INITIAL) == INITIAL
  {
  }
}
