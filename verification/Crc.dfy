/** The reflected CRC-32 of pour_history.cpp (polynomial 0xEDB88320, without the
    final complement), computed bit by bit and resumable. */
module Crc {
  import opened Clock

  type byte = n: int | 0 <= n < 0x100

  const INITIAL: uint32 := 0xFFFF_FFFF

  function Feedback(v: bv32): bv32 { if v & 1 != 0 then 0xEDB8_8320 else 0 }

  function Shift(v: bv32): bv32 { (v >> 1) ^ Feedback(v) }

  function Shifts(v: bv32, n: nat): bv32 { if n == 0 then v else Shift(Shifts(v, n - 1)) }

  function Feed(v: bv32, b: byte): bv32 { Shifts(v ^ (b as bv32), 8) }

  function Run(v: bv32, data: seq<byte>): bv32 {
    if data == [] then v else Feed(Run(v, data[..|data| - 1]), data[|data| - 1])
  }

  function Bits(n: uint32): bv32 { n as bv32 }

  function Word(v: bv32): uint32 { v as uint32 }

  function Crc(data: seq<byte>, value: uint32): uint32 { Word(Run(Bits(value), data)) }

  method FeedByte(v: bv32, b: byte) returns (r: bv32)
    ensures r == Feed(v, b)
  {
    var mixed := v ^ (b as bv32);
    r := mixed;
    for bit := 0 to 8
      invariant r == Shifts(mixed, bit)
    {
      r := (r >> 1) ^ (if r & 1 != 0 then 0xEDB8_8320 else 0);
    }
  }

  method Compute(data: seq<byte>, value: uint32) returns (r: uint32)
    ensures r == Crc(data, value)
  {
    hide Feed, Bits, Word;
    var acc := Bits(value);
    for i := 0 to |data|
      invariant acc == Run(Bits(value), data[..i])
    {
      assert data[..i + 1][..i] == data[..i];
      acc := FeedByte(acc, data[i]);
    }
    assert data[..|data|] == data;
    r := Word(acc);
  }

  lemma {:induction false} RunJoins(v: bv32, a: seq<byte>, b: seq<byte>)
    ensures Run(v, a + b) == Run(Run(v, a), b)
    decreases |b|
  {
    hide Feed;
    if b == [] {
      assert a + b == a;
    } else {
      var init := b[..|b| - 1];
      assert (a + b)[..|a + b| - 1] == a + init;
      RunJoins(v, a, init);
    }
  }

  /** Feeding the data in pieces gives the checksum of the whole. */
  lemma CrcJoins(a: seq<byte>, b: seq<byte>, value: uint32)
    ensures Crc(a + b, value) == Crc(b, Crc(a, value))
  {
    hide Run, Bits, Word;
    RunJoins(Bits(value), a, b);
    WordRoundTrip(Run(Bits(value), a));
  }

  lemma WordRoundTrip(v: bv32)
    ensures Bits(Word(v)) == v
  {
  }

  // -------------------------------------------------------------- what it is good for

  function Xor(a: bv32, b: bv32): bv32 { a ^ b }

  function Half(v: bv32): bv32 { v >> 1 }

  function LowBit(v: bv32): bv32 { v & 1 }

  predicate Even(v: bv32) { LowBit(v) == 0 }

  lemma XorUnits(p: bv32)
    ensures Xor(p, 0) == p && Xor(0, p) == p && Xor(p, p) == 0
  {
  }

  lemma Interchange(a: bv32, b: bv32, c: bv32, d: bv32)
    ensures Xor(Xor(a, b), Xor(c, d)) == Xor(Xor(a, c), Xor(b, d))
  {
    hide Xor;
    Associates(a, b, Xor(c, d));
    Associates(b, c, d);
    Commutes(b, c);
    Associates(c, b, d);
    Associates(a, c, Xor(b, d));
  }

  lemma Associates(a: bv32, b: bv32, c: bv32)
    ensures Xor(Xor(a, b), c) == Xor(a, Xor(b, c))
  {
  }

  lemma Commutes(a: bv32, b: bv32)
    ensures Xor(a, b) == Xor(b, a)
  {
  }

  lemma HalfOfXor(a: bv32, b: bv32)
    ensures Half(Xor(a, b)) == Xor(Half(a), Half(b))
  {
  }

  lemma LowBitOfXor(a: bv32, b: bv32)
    ensures LowBit(Xor(a, b)) == Xor(LowBit(a), LowBit(b))
  {
  }

  lemma LowBitIs(v: bv32)
    ensures LowBit(v) == 0 || LowBit(v) == 1
  {
  }

  lemma EvenOfXor(a: bv32, b: bv32)
    ensures Even(Xor(a, b)) <==> Even(a) == Even(b)
  {
    hide Xor, LowBit;
    LowBitOfXor(a, b);
    LowBitIs(a);
    LowBitIs(b);
    XorUnits(0);
    XorUnits(1);
  }

  lemma FeedbackIs(v: bv32)
    ensures Feedback(v) == if Even(v) then 0 else 0xEDB8_8320
  {
  }

  lemma FeedbackIsLinear(a: bv32, b: bv32)
    ensures Feedback(Xor(a, b)) == Xor(Feedback(a), Feedback(b))
  {
    hide Feedback, Xor, Even;
    EvenOfXor(a, b);
    FeedbackIs(a);
    FeedbackIs(b);
    FeedbackIs(Xor(a, b));
    XorUnits(0xEDB8_8320);
    XorUnits(0);
  }

  lemma ShiftIs(v: bv32)
    ensures Shift(v) == Xor(Half(v), Feedback(v))
  {
    hide Feedback;
  }

  lemma ShiftIsLinear(a: bv32, b: bv32)
    ensures Shift(Xor(a, b)) == Xor(Shift(a), Shift(b))
  {
    hide Feedback, Shift, Xor, Half;
    ShiftIs(a);
    ShiftIs(b);
    ShiftIs(Xor(a, b));
    HalfOfXor(a, b);
    FeedbackIsLinear(a, b);
    Interchange(Half(a), Half(b), Feedback(a), Feedback(b));
  }

  /** Checksums add up bit by bit. */
  lemma {:induction false} ShiftsAreLinear(a: bv32, b: bv32, n: nat)
    ensures Shifts(Xor(a, b), n) == Xor(Shifts(a, n), Shifts(b, n))
    decreases n
  {
    hide Shift, Xor;
    if n > 0 {
      ShiftsAreLinear(a, b, n - 1);
      ShiftIsLinear(Shifts(a, n - 1), Shifts(b, n - 1));
    }
  }

  lemma {:induction false} EightShifts(v: bv32)
    ensures Shifts(v, 8) == Shift(Shift(Shift(Shift(Shift(Shift(Shift(Shift(v))))))))
  {
    hide Shift;
    assert Shifts(v, 1) == Shift(v);
    assert Shifts(v, 2) == Shift(Shifts(v, 1));
    assert Shifts(v, 4) == Shift(Shift(Shifts(v, 2)));
    assert Shifts(v, 6) == Shift(Shift(Shifts(v, 4)));
    assert Shifts(v, 8) == Shift(Shift(Shifts(v, 6)));
  }

  lemma EvenShift(v: bv32)
    ensures Even(v) ==> Shift(v) == Half(v)
  {
    hide Shift, Even, Half, Xor;
    OneShift(v);
  }

  /** The upper bits only move down. */
  lemma HighShifts(v: bv32)
    requires v & 0xFF == 0
    ensures Shifts(v, 8) == v >> 8
  {
    hide Shift, Even, Half;
    EightShifts(v);
    var v1, v2, v3 := Half(v), Half(Half(v)), Half(Half(Half(v)));
    var v4, v5, v6, v7 := Half(v3), Half(Half(v3)), Half(Half(Half(v3))), Half(Half(Half(Half(v3))));
    ZerosMoveDown(v);
    EvenShift(v);
    EvenShift(v1);
    EvenShift(v2);
    EvenShift(v3);
    EvenShift(v4);
    EvenShift(v5);
    EvenShift(v6);
    EvenShift(v7);
  }

  lemma ZerosMoveDown(v: bv32)
    requires v & 0xFF == 0
    ensures var v3 := Half(Half(Half(v)));
            && Even(v) && Even(Half(v)) && Even(Half(Half(v))) && Even(v3) && Even(Half(v3)) && Even(Half(Half(v3)))
            && Even(Half(Half(Half(v3)))) && Even(Half(Half(Half(Half(v3)))))
            && Half(Half(Half(Half(Half(v3))))) == v >> 8
  {
  }

  function LowByte(x: bv32): bv32 { x & 0xFF }

  function HighBytes(x: bv32): bv32 { x & 0xFFFF_FF00 }

  function DownOneByte(x: bv32): bv32 { x >> 8 }

  lemma Split(v: bv32, b: bv32)
    requires HighBytes(b) == 0
    ensures var x := Xor(v, b);
            Xor(LowByte(x), HighBytes(x)) == x && HighBytes(x) & 0xFF == 0 && HighBytes(x) >> 8 == DownOneByte(v)
  {
  }

  lemma ByteBits(b: byte)
    ensures HighBytes(b as bv32) == 0
  {
    var w := b as bv32;
    assert w < 0x100;
  }

  lemma FeedShifts(v: bv32, b: byte)
    ensures Feed(v, b) == Shifts(Xor(v, b as bv32), 8)
  {
    hide Shifts;
  }

  /** One byte is one step of the common implementation by table: the accumulator moves
      down by a byte, and the table entry of the byte that falls out is added. */
  lemma FeedIsTableStep(v: bv32, b: byte)
    ensures Feed(v, b) == Xor(Shifts(LowByte(Xor(v, b as bv32)), 8), DownOneByte(v))
  {
    hide Shifts, Xor, LowByte, HighBytes, DownOneByte, Feed;
    ByteBits(b);
    FeedShifts(v, b);
    Split(v, b as bv32);
    var x := Xor(v, b as bv32);
    ShiftsAreLinear(LowByte(x), HighBytes(x), 8);
    HighShifts(HighBytes(x));
  }

  /** Table entries, from the last bit up. */
  lemma {:induction false} EntryOf(v: bv32, n: nat)
    ensures Shifts(v, n + 1) == if Even(v) then Shifts(Half(v), n) else Shifts(Xor(Half(v), 0xEDB8_8320), n)
    decreases n
  {
    hide Shift, Even, Half, Xor;
    if n == 0 {
      assert Shifts(v, 1) == Shift(Shifts(v, 0));
      OneShift(v);
    } else {
      EntryOf(v, n - 1);
    }
  }

  lemma OneShift(v: bv32)
    ensures Shift(v) == if Even(v) then Half(v) else Xor(Half(v), 0xEDB8_8320)
  {
    hide Feedback, Shift, Xor, Half, Even;
    ShiftIs(v);
    FeedbackIs(v);
    XorUnits(Half(v));
  }

  lemma ShiftIsInjective(a: bv32, b: bv32)
    ensures Shift(a) == Shift(b) ==> a == b
  {
  }

  lemma {:induction false} ShiftsAreInjective(a: bv32, b: bv32, n: nat)
    ensures Shifts(a, n) == Shifts(b, n) ==> a == b
    decreases n
  {
    hide Shift;
    if n > 0 {
      ShiftIsInjective(Shifts(a, n - 1), Shifts(b, n - 1));
      ShiftsAreInjective(a, b, n - 1);
    }
  }

  lemma Cancels(a: bv32, b: bv32, x: bv32)
    ensures Xor(a, x) == Xor(b, x) ==> a == b
    ensures Xor(x, a) == Xor(x, b) ==> a == b
  {
  }

  lemma FeedIsInjective(v: bv32, w: bv32, x: byte, y: byte)
    ensures Feed(v, x) == Feed(w, x) ==> v == w
    ensures Feed(v, x) == Feed(v, y) ==> x as bv32 == y as bv32
  {
    hide Shifts, Xor, Feed;
    FeedShifts(v, x);
    FeedShifts(w, x);
    FeedShifts(v, y);
    ShiftsAreInjective(Xor(v, x as bv32), Xor(w, x as bv32), 8);
    ShiftsAreInjective(Xor(v, x as bv32), Xor(v, y as bv32), 8);
    Cancels(v, w, x as bv32);
    Cancels(x as bv32, y as bv32, v);
  }

  lemma {:induction false} RunIsInjective(v: bv32, w: bv32, data: seq<byte>)
    ensures Run(v, data) == Run(w, data) ==> v == w
    decreases |data|
  {
    hide Feed;
    if data != [] {
      var init, last := data[..|data| - 1], data[|data| - 1];
      FeedIsInjective(Run(v, init), Run(w, init), last, last);
      RunIsInjective(v, w, init);
    }
  }

  lemma OneByte(v: bv32, x: byte)
    ensures Run(v, [x]) == Feed(v, x)
  {
    hide Feed;
    assert [x][..0] == [];
  }

  /** A changed byte is always seen, wherever it is and whatever stands around it: equal
      checksums mean that its bits are the same. */
  lemma {:induction false} ChangedByteIsSeen(a: seq<byte>, x: byte, y: byte, b: seq<byte>, value: uint32)
    requires Crc(a + [x] + b, value) == Crc(a + [y] + b, value)
    ensures x as bv32 == y as bv32
  {
    hide Feed, Bits, Word, Run;
    var v := Run(Bits(value), a);
    RunJoins(Bits(value), a + [x], b);
    RunJoins(Bits(value), a + [y], b);
    RunJoins(Bits(value), a, [x]);
    RunJoins(Bits(value), a, [y]);
    OneByte(v, x);
    OneByte(v, y);
    FeedIsInjective(v, v, x, y);
    RunIsInjective(Feed(v, x), Feed(v, y), b);
    WordRoundTrip(Run(Feed(v, x), b));
    WordRoundTrip(Run(Feed(v, y), b));
  }
}
