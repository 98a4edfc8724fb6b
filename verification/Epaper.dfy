/** The e-paper driver (epaper.c): a 122x250 panel used sideways, drawn into a
    byte framebuffer with 16 bytes a row. A retained copy of the frame survives
    deep sleep and decides which window of the panel has to be sent. */
module Epaper {
  import opened Clock

  const STRIDE: nat := 16
  const ROWS: nat := 250
  const SIZE: nat := 4000
  const WIDTH: int := 250
  const HEIGHT: int := 122

  function Blank(n: nat, b: bv8): (s: seq<bv8>)
    ensures |s| == n && forall i :: 0 <= i < n ==> s[i] == b
  {
    seq(n, i => b)
  }

  type Frame = f: seq<bv8> | |f| == SIZE witness Blank(SIZE, 0xFF)

  /** A window of native bytes, corners included: columns x0..x1, rows y0..y1. */
  datatype Window = Window(x0: int, x1: int, y0: int, y1: int)
  {
    predicate OnPanel() { 0 <= x0 <= x1 < STRIDE && 0 <= y0 <= y1 < ROWS }

    /** Byte `i` of a frame lies in the window. */
    predicate Holds(i: nat) { x0 <= i % STRIDE <= x1 && y0 <= i / STRIDE <= y1 }

    function Top(rows: nat): Window {
      if y0 + rows <= y1 then Window(x0, x1, y0, y0 + rows - 1) else this
    }

    predicate Within(w: Window) { w.x0 <= x0 && x1 <= w.x1 && w.y0 <= y0 && y1 <= w.y1 }
  }

  /** The part of a window that a transfer of `rows` rows has reached. */
  lemma FirstRows(w: Window, rows: nat, i: nat)
    ensures w.Top(rows).Holds(i) <==> w.Holds(i) && i / STRIDE < w.y0 + rows
  {
  }

  function Copied(from: Frame, to: Frame, w: Window): (f: Frame)
    ensures forall i :: 0 <= i < SIZE ==> f[i] == if w.Holds(i) then from[i] else to[i]
  {
    seq(SIZE, i requires 0 <= i < SIZE => if w.Holds(i) then from[i] else to[i])
  }

  // ------------------------------------------------------------------- drawing

  /** The bit of column `x` in its byte; the leftmost column is the top bit. */
  function Mask(x: nat): bv8 {
    match x % 8
    case 0 => 0x80
    case 1 => 0x40
    case 2 => 0x20
    case 3 => 0x10
    case 4 => 0x08
    case 5 => 0x04
    case 6 => 0x02
    case _ => 0x01
  }

  function Painted(b: bv8, x: nat, black: bool): bv8 { if black then b & !Mask(x) else b | Mask(x) }

  predicate OnScreen(x: int, y: int) { 0 <= x < WIDTH && 0 <= y < HEIGHT }

  /** The byte that holds pixel (x, y) of the landscape picture. */
  function ByteOf(x: int, y: int): (i: nat)
    requires OnScreen(x, y)
    ensures i < SIZE && i / STRIDE == ROWS - 1 - x && i % STRIDE == y / 8
  {
    (ROWS - 1 - x) * STRIDE + y / 8
  }

  predicate Black(f: Frame, x: int, y: int)
    requires OnScreen(x, y)
  {
    Dark(f[ByteOf(x, y)], y)
  }

  /** The bit of column `x` is cleared. */
  predicate Dark(b: bv8, x: nat) { b & Mask(x) == 0 }

  predicate InRect(px: int, py: int, x: int, y: int, width: int, height: int) {
    x <= px < x + width && y <= py < y + height
  }

  /** The panel is mounted sideways: column y of native row 249 - x, the leftmost
      column of a byte in its top bit, and a cleared bit is black. */
  lemma PixelIsBit(f: Frame, x: int, y: int)
    requires OnScreen(x, y)
    ensures Black(f, x, y) <==> (f[(249 - x) * 16 + y / 8] >> (7 - y % 8)) & 1 == 0
  {
    BitOfMask(f[ByteOf(x, y)], y);
  }

  lemma BitOfMask(b: bv8, y: nat)
    ensures b & Mask(y) == 0 <==> (b >> (7 - y % 8)) & 1 == 0
  {
    assert y % 8 == 0 || y % 8 == 1 || y % 8 == 2 || y % 8 == 3 || y % 8 == 4 || y % 8 == 5 || y % 8 == 6 || y % 8 == 7;
  }

  /** The six columns of the last byte of a row that are not visible. */
  function Padding(f: Frame, row: nat): bv8
    requires row < ROWS
  {
    f[row * STRIDE + STRIDE - 1] & 0x3F
  }

  lemma MaskAlone(b: bv8, x: nat, y: nat)
    ensures (b & !Mask(x)) & Mask(x) == 0 && (b | Mask(x)) & Mask(x) != 0
    ensures x % 8 != y % 8 ==> (b & !Mask(x)) & Mask(y) == b & Mask(y) && (b | Mask(x)) & Mask(y) == b & Mask(y)
  {
  }

  lemma PaintedKeepsPadding(b: bv8, y: nat, black: bool)
    requires y / 8 == STRIDE - 1 && y < HEIGHT
    ensures Painted(b, y, black) & 0x3F == b & 0x3F
  {
    assert y == 120 || y == 121;
  }

  lemma PaddingUntouched(before: Frame, after: Frame, x: int, y: int, black: bool, row: nat)
    requires OnScreen(x, y) && row < ROWS
    requires after == before[ByteOf(x, y) := Painted(before[ByteOf(x, y)], y, black)]
    ensures Padding(after, row) == Padding(before, row)
  {
    hide Painted;
    var i := row * STRIDE + STRIDE - 1;
    if i == ByteOf(x, y) {
      assert i % STRIDE == STRIDE - 1;
      PaintedKeepsPadding(before[i], y, black);
    }
  }

  /** Equal bytes, bit by bit. */
  lemma SameBits(a: bv8, b: bv8)
    requires forall k: nat :: k < 8 ==> (a & Mask(k) == 0 <==> b & Mask(k) == 0)
    ensures a == b
  {
    assert (a & Mask(0) == 0 <==> b & Mask(0) == 0) && (a & Mask(1) == 0 <==> b & Mask(1) == 0);
    assert (a & Mask(2) == 0 <==> b & Mask(2) == 0) && (a & Mask(3) == 0 <==> b & Mask(3) == 0);
    assert (a & Mask(4) == 0 <==> b & Mask(4) == 0) && (a & Mask(5) == 0 <==> b & Mask(5) == 0);
    assert (a & Mask(6) == 0 <==> b & Mask(6) == 0) && (a & Mask(7) == 0 <==> b & Mask(7) == 0);
  }

  lemma SamePixelByte(x: int, y: int, px: int, py: int)
    requires OnScreen(x, y) && OnScreen(px, py)
    ensures ByteOf(x, y) == ByteOf(px, py) && y % 8 == py % 8 ==> x == px && y == py
  {
  }

  lemma PixelDrawn(before: Frame, after: Frame, x: int, y: int, px: int, py: int, black: bool)
    requires OnScreen(x, y) && OnScreen(px, py)
    requires after == before[ByteOf(x, y) := Painted(before[ByteOf(x, y)], y, black)]
    ensures Black(after, px, py) == if px == x && py == y then black else Black(before, px, py)
  {
    hide Mask, ByteOf, Painted, Dark;
    var i := ByteOf(x, y);
    SamePixelByte(x, y, px, py);
    PaintedBit(before[i], y, py, black);
    assert i == ByteOf(px, py) || after[ByteOf(px, py)] == before[ByteOf(px, py)];
  }

  lemma PaintedBit(b: bv8, y: nat, py: nat, black: bool)
    ensures Dark(Painted(b, y, black), py) <==> if y % 8 == py % 8 then black else Dark(b, py)
  {
    hide Mask;
    MaskAlone(b, y, py);
    SameMask(y, py);
  }

  lemma SameMask(y: nat, py: nat)
    ensures y % 8 == py % 8 ==> Mask(y) == Mask(py)
  {
  }

  lemma PictureDrawn(before: Frame, after: Frame, x: int, y: int, black: bool)
    requires OnScreen(x, y)
    requires after == before[ByteOf(x, y) := Painted(before[ByteOf(x, y)], y, black)]
    ensures forall px, py :: OnScreen(px, py) ==>
              Black(after, px, py) == if px == x && py == y then black else Black(before, px, py)
  {
    hide Mask, Painted, ByteOf, Black;
    forall px, py | OnScreen(px, py)
      ensures Black(after, px, py) == if px == x && py == y then black else Black(before, px, py)
    {
      PixelDrawn(before, after, x, y, px, py, black);
    }
  }

  /** The picture and the padding are all there is to a frame. */
  lemma FrameIsItsPicture(f: Frame, g: Frame)
    ensures f == g <==>
            && (forall x, y :: OnScreen(x, y) ==> Black(f, x, y) == Black(g, x, y))
            && (forall row: nat :: row < ROWS ==> Padding(f, row) == Padding(g, row))
  {
    hide Black, Padding, Mask;
    if (forall x, y :: OnScreen(x, y) ==> Black(f, x, y) == Black(g, x, y)) &&
       (forall row: nat :: row < ROWS ==> Padding(f, row) == Padding(g, row)) {
      forall i | 0 <= i < SIZE
        ensures f[i] == g[i]
      {
        SameByte(f, g, i / STRIDE, i % STRIDE);
      }
    }
  }

  lemma SameByte(f: Frame, g: Frame, row: nat, column: nat)
    requires row < ROWS && column < STRIDE && Padding(f, row) == Padding(g, row)
    requires forall x, y :: OnScreen(x, y) ==> Black(f, x, y) == Black(g, x, y)
    ensures f[row * STRIDE + column] == g[row * STRIDE + column]
  {
    hide Mask, Black, Padding;
    var i := row * STRIDE + column;
    forall k: nat | k < 8
      ensures f[i] & Mask(k) == 0 <==> g[i] & Mask(k) == 0
    {
      SameBit(f, g, row, column, k);
    }
    SameBits(f[i], g[i]);
  }

  lemma SameBit(f: Frame, g: Frame, row: nat, column: nat, k: nat)
    requires row < ROWS && column < STRIDE && k < 8 && Padding(f, row) == Padding(g, row)
    requires forall x, y :: OnScreen(x, y) ==> Black(f, x, y) == Black(g, x, y)
    ensures f[row * STRIDE + column] & Mask(k) == 0 <==> g[row * STRIDE + column] & Mask(k) == 0
  {
    hide Mask, Black;
    if column * 8 + k < HEIGHT {
      PixelOfByte(f, row, column, k);
      PixelOfByte(g, row, column, k);
      assert Black(f, ROWS - 1 - row, column * 8 + k) == Black(g, ROWS - 1 - row, column * 8 + k);
    } else {
      PaddingBit(f[row * STRIDE + column], g[row * STRIDE + column], k);
    }
  }

  lemma PixelOfByte(f: Frame, row: nat, column: nat, k: nat)
    requires row < ROWS && column < STRIDE && k < 8 && column * 8 + k < HEIGHT
    ensures Black(f, ROWS - 1 - row, column * 8 + k) <==> f[row * STRIDE + column] & Mask(k) == 0
  {
    assert (column * 8 + k) % 8 == k && (column * 8 + k) / 8 == column;
  }

  lemma PaddingBit(a: bv8, b: bv8, k: nat)
    requires a & 0x3F == b & 0x3F && 2 <= k < 8
    ensures a & Mask(k) == 0 <==> b & Mask(k) == 0
  {
  }

  // -------------------------------------------------------------- changed areas

  function Min(a: int, b: int): int { if b < a then b else a }
  function Max(a: int, b: int): int { if b > a then b else a }

  /** The bounds of the bytes that differ among the first `n`; before the first
      one they are the sentinels of an empty window. */
  function Bounds(f: Frame, g: Frame, n: nat): Window
    requires n <= SIZE
  {
    if n == 0 then Window(STRIDE, -1, ROWS, -1)
    else
      var b := Bounds(f, g, n - 1);
      if f[n - 1] == g[n - 1] then b
      else
        var r, c := (n - 1) / STRIDE, (n - 1) % STRIDE;
        Window(Min(b.x0, c), Max(b.x1, c), Min(b.y0, r), Max(b.y1, r))
  }

  datatype Rect = Rect(x: int, y: int, width: int, height: int)
  {
    /** What `epaper_refresh_partial` accepts. */
    predicate Accepted() {
      && 0 <= x && 0 <= y && 0 < width && 0 < height
      && x + width <= WIDTH && y + height <= HEIGHT
      && y % 8 == 0 && height % 8 == 0
    }

    function Native(): Window {
      Window(y / 8, (y + height - 1) / 8, ROWS - (x + width), ROWS - 1 - x)
    }
  }

  function RectOf(w: Window): Rect {
    Rect(ROWS - 1 - w.y1, w.x0 * 8, w.y1 - w.y0 + 1, (w.x1 - w.x0 + 1) * 8)
  }

  // ------------------------------------------------------------ the controller

  /** Where a refresh can stop, in the order a partial one goes through. */
  datatype Step = Configure | SendCurrent | PowerOn | Activate | SyncPrevious | SyncCurrent | PowerOff

  /** How the hardware treats one refresh: all well, or trouble in one step. A
      transfer breaks off after `done` rows or bytes, an activation leaves the
      bytes in `driven` driven, an interrupted full waveform leaves `image`. */
  datatype Trouble = Smooth | At(step: Step, done: nat, driven: set<nat>, image: Frame)
  {
    predicate Hits(s: Step) { At? && step == s }
  }

  datatype Outcome = Done | InvalidState | InvalidArg | Failed

  /** The driver's frames and the controller's: RAM planes 0x26 (`previous`) and
      0x24 (`current`) and what the panel shows. `valid` is the retained magic. */
  datatype Screen = Screen(
    fb: Frame, retained: Frame, previous: Frame, current: Frame, shown: Frame,
    valid: bool, count: uint32, ready: bool)

  /** A partial activation drives the bytes whose two planes differ. */
  function Driven(previous: Frame, current: Frame, shown: Frame): (f: Frame)
    ensures forall i :: 0 <= i < SIZE ==> f[i] == if previous[i] != current[i] then current[i] else shown[i]
  {
    seq(SIZE, i requires 0 <= i < SIZE => if previous[i] != current[i] then current[i] else shown[i])
  }

  /** An activation that broke off has driven some of them. */
  function DrivenSome(previous: Frame, current: Frame, shown: Frame, driven: set<nat>): (f: Frame)
    ensures forall i :: 0 <= i < SIZE ==> f[i] == if previous[i] != current[i] && i in driven then current[i] else shown[i]
  {
    seq(SIZE, i requires 0 <= i < SIZE => if previous[i] != current[i] && i in driven then current[i] else shown[i])
  }

  function Begun(from: Frame, to: Frame, n: nat): (f: Frame)
    ensures forall i :: 0 <= i < SIZE ==> f[i] == if i < n then from[i] else to[i]
  {
    if n <= SIZE then from[..n] + to[n..] else from
  }

  function AfterFull(s: Screen, t: Trouble): Screen {
    if t.Hits(Configure) then s
    else if t.Hits(SyncPrevious) then s.(previous := Begun(s.fb, s.previous, t.done))
    else if t.Hits(SendCurrent) then s.(previous := s.fb, current := Begun(s.fb, s.current, t.done))
    else if t.Hits(Activate) then s.(previous := s.fb, current := s.fb, shown := t.image)
    else s.(previous := s.fb, current := s.fb, shown := s.fb, retained := s.fb, valid := true, count := 0)
  }

  predicate FullFails(t: Trouble) {
    t.Hits(Configure) || t.Hits(SyncPrevious) || t.Hits(SendCurrent) || t.Hits(Activate)
  }

  function Sent(s: Screen, w: Window): Screen { s.(current := Copied(s.fb, s.current, w)) }

  function Activated(s: Screen): Screen { s.(shown := Driven(s.previous, s.current, s.shown)) }

  function Synced(s: Screen, w: Window): Screen { s.(previous := Copied(s.fb, s.previous, w)) }

  function Remembered(s: Screen, w: Window): Screen {
    if s.valid then s.(retained := Copied(s.fb, s.retained, w)) else s
  }

  function AfterPartial(s: Screen, w: Window, t: Trouble): Screen {
    if t.Hits(Configure) then s
    else if t.Hits(SendCurrent) then Sent(s, w.Top(t.done))
    else if t.Hits(PowerOn) then Sent(s, w)
    else
      var sent := Sent(s, w);
      if t.Hits(Activate) then sent.(shown := DrivenSome(sent.previous, sent.current, sent.shown, t.driven))
      else
        var active := Activated(sent);
        if t.Hits(SyncPrevious) then Synced(active, w.Top(t.done))
        else
          var synced := Synced(active, w);
          if t.Hits(SyncCurrent) then Sent(synced, w.Top(t.done))
          else if t.Hits(PowerOff) then Sent(synced, w)
          else Remembered(Sent(synced, w), w)
  }

  // ------------------------------------------------------------- refresh calls

  function Full(s: Screen, t: Trouble): (Screen, Outcome) {
    if !s.ready then (s, InvalidState)
    else (AfterFull(s, t), if FullFails(t) then Failed else Done)
  }

  function Partial(s: Screen, r: Rect, t: Trouble): (Screen, Outcome) {
    if !s.ready then (s, InvalidState)
    else if !r.Accepted() then (s, InvalidArg)
    else (AfterPartial(s, r.Native(), t), if t.At? then Failed else Done)
  }

  /** How `epaper_refresh_changed` decides. */
  datatype Way = Nothing | Whole | Area(rect: Rect)

  function Choice(s: Screen, interval: uint32): Way {
    if !s.valid then Whole
    else if s.fb == s.retained then Nothing
    else if interval > 0 && s.count >= interval - 1 then Whole
    else
      var r := RectOf(Bounds(s.fb, s.retained, SIZE));
      if r.y + r.height > HEIGHT then Whole else Area(r)
  }

  function Changed(s: Screen, interval: uint32, t: Trouble): (Screen, Outcome) {
    if !s.ready then (s, InvalidState)
    else
      match Choice(s, interval)
      case Nothing => (s, Done)
      case Whole => Full(s, t)
      case Area(r) =>
        var (next, outcome) := Partial(s, r, t);
        if outcome == Done then (next.(count := Wrap(next.count + 1)), Done) else (next, outcome)
  }

  lemma {:induction false} BoundsFacts(f: Frame, g: Frame, n: nat)
    requires n <= SIZE
    ensures var b := Bounds(f, g, n);
            && (f[..n] == g[..n] <==> b == Window(STRIDE, -1, ROWS, -1))
            && (f[..n] != g[..n] ==> b.OnPanel())
    decreases n
  {
    if n > 0 {
      BoundsFacts(f, g, n - 1);
      assert f[..n] == f[..n - 1] + [f[n - 1]] && g[..n] == g[..n - 1] + [g[n - 1]];
    }
  }

  class Display {
    const fb: array<bv8>
    const retained: array<bv8>
    const previous: array<bv8>
    const current: array<bv8>
    const shown: array<bv8>
    var valid: bool
    var count: uint32
    var ready: bool

    ghost predicate Valid()
      reads this
    {
      && fb.Length == retained.Length == previous.Length == current.Length == shown.Length == SIZE
      && fb != retained && fb != previous && fb != current && fb != shown
      && retained != previous && retained != current && retained != shown
      && previous != current && previous != shown && current != shown
    }

    ghost function View(): Screen
      reads this, fb, retained, previous, current, shown
      requires Valid()
    {
      Screen(fb[..], retained[..], previous[..], current[..], shown[..], valid, count, ready)
    }

    constructor ()
      ensures Valid() && fresh(fb) && fresh(retained) && fresh(previous) && fresh(current) && fresh(shown)
      ensures !valid && !ready && count == 0
    {
      fb := new bv8[SIZE];
      retained := new bv8[SIZE];
      previous := new bv8[SIZE];
      current := new bv8[SIZE];
      shown := new bv8[SIZE];
      valid, count, ready := false, 0, false;
    }

    method Clear(black: bool)
      requires Valid()
      modifies fb
      ensures Valid() && fb[..] == Blank(SIZE, if black then 0x00 else 0xFF)
    {
      forall i | 0 <= i < SIZE {
        fb[i] := if black then 0x00 else 0xFF;
      }
    }

    method SetPixel(x: int, y: int, black: bool)
      requires Valid()
      modifies fb
      ensures Valid()
      ensures forall px, py :: OnScreen(px, py) ==>
                Black(fb[..], px, py) == if px == x && py == y then black else Black(old(fb[..]), px, py)
      ensures forall row: nat :: row < ROWS ==> Padding(fb[..], row) == Padding(old(fb[..]), row)
    {
      hide Black, Painted, ByteOf, Padding;
      if x < 0 || x >= WIDTH || y < 0 || y >= HEIGHT {
        return;
      }
      ghost var before := fb[..];
      var index := ByteOf(x, y);
      fb[index] := Painted(fb[index], y, black);
      PictureDrawn(before, fb[..], x, y, black);
      forall row: nat | row < ROWS
        ensures Padding(fb[..], row) == Padding(before, row)
      {
        PaddingUntouched(before, fb[..], x, y, black, row);
      }
    }

    /** Draws exactly the part of the rectangle that is on the screen. */
    method FillRect(x: int, y: int, width: int, height: int, black: bool)
      requires Valid()
      modifies fb
      ensures Valid()
      ensures forall px, py :: OnScreen(px, py) ==>
                Black(fb[..], px, py) == if InRect(px, py, x, y, width, height) then black else Black(old(fb[..]), px, py)
      ensures forall row: nat :: row < ROWS ==> Padding(fb[..], row) == Padding(old(fb[..]), row)
    {
      hide Black, Mask, Padding;
      var py := y;
      while py < y + height
        invariant y <= py <= y + Max(height, 0)
        invariant forall row: nat :: row < ROWS ==> Padding(fb[..], row) == Padding(old(fb[..]), row)
        invariant forall qx, qy :: OnScreen(qx, qy) ==>
                    Black(fb[..], qx, qy) == if InRect(qx, qy, x, y, width, py - y) then black else Black(old(fb[..]), qx, qy)
      {
        var px := x;
        while px < x + width
          invariant x <= px <= x + Max(width, 0)
          invariant forall row: nat :: row < ROWS ==> Padding(fb[..], row) == Padding(old(fb[..]), row)
          invariant forall qx, qy :: OnScreen(qx, qy) ==>
                      Black(fb[..], qx, qy) ==
                      if InRect(qx, qy, x, y, width, py - y) || InRect(qx, qy, x, py, px - x, 1) then black
                      else Black(old(fb[..]), qx, qy)
        {
          SetPixel(px, py, black);
          px := px + 1;
        }
        py := py + 1;
      }
    }

    /** The row loops of `write_partial_plane` and `remember_partial_frame`. */
    method CopyRows(to: array<bv8>, w: Window, rows: nat)
      requires Valid() && to.Length == SIZE && to != fb && w.OnPanel()
      modifies to
      ensures to[..] == Copied(fb[..], old(to[..]), w.Top(rows))
    {
      ghost var before := to[..];
      var y, n := w.y0, w.x1 - w.x0 + 1;
      while y <= w.y1 && y < w.y0 + rows
        invariant w.y0 <= y <= w.y1 + 1 && y <= w.y0 + rows
        invariant forall i :: 0 <= i < SIZE ==>
                    to[i] == if Window(w.x0, w.x1, w.y0, y - 1).Holds(i) then fb[i] else before[i]
      {
        var offset := y * STRIDE + w.x0;
        forall k | offset <= k < offset + n {
          to[k] := fb[k];
        }
        y := y + 1;
      }
      assert Window(w.x0, w.x1, w.y0, y - 1) == w.Top(rows);
    }

    /** One transfer of the whole framebuffer; it may break off. */
    method SendFrame(to: array<bv8>, n: nat)
      requires Valid() && to.Length == SIZE && to != fb
      modifies to
      ensures to[..] == Begun(fb[..], old(to[..]), n)
    {
      forall i | 0 <= i < SIZE && i < n {
        to[i] := fb[i];
      }
    }

    /** The waveform of a partial activation, broken off or not. */
    method Drive(all: bool, driven: set<nat>)
      requires Valid()
      modifies shown
      ensures shown[..] == if all then Driven(previous[..], current[..], old(shown[..]))
                           else DrivenSome(previous[..], current[..], old(shown[..]), driven)
    {
      forall i | 0 <= i < SIZE && previous[i] != current[i] && (all || i in driven) {
        shown[i] := current[i];
      }
    }

    method FindChangedArea() returns (found: bool, r: Rect)
      requires Valid()
      ensures found == (valid && fb[..] != retained[..])
      ensures found ==> r == RectOf(Bounds(fb[..], retained[..], SIZE))
    {
      r := Rect(0, 0, 0, 0);
      if !valid {
        return false, r;
      }
      var xMin, xMax, yMin, yMax := STRIDE as int, -1, ROWS as int, -1;
      for y := 0 to ROWS
        invariant Window(xMin, xMax, yMin, yMax) == Bounds(fb[..], retained[..], y * STRIDE)
      {
        for x := 0 to STRIDE
          invariant Window(xMin, xMax, yMin, yMax) == Bounds(fb[..], retained[..], y * STRIDE + x)
        {
          var offset := y * STRIDE + x;
          assert offset / STRIDE == y && offset % STRIDE == x;
          if fb[offset] != retained[offset] {
            xMin, xMax, yMin, yMax := Min(xMin, x), Max(xMax, x), Min(yMin, y), Max(yMax, y);
          }
        }
      }
      BoundsFacts(fb[..], retained[..], SIZE);
      assert fb[..][..SIZE] == fb[..] && retained[..][..SIZE] == retained[..];
      if xMax < xMin || yMax < yMin {
        return false, r;
      }
      return true, RectOf(Window(xMin, xMax, yMin, yMax));
    }

    method Refresh(t: Trouble) returns (outcome: Outcome)
      requires Valid()
      modifies this`valid, this`count, retained, previous, current, shown
      ensures Valid() && (View(), outcome) == Full(old(View()), t)
    {
      if !ready {
        return InvalidState;
      }
      if t.Hits(Configure) {
        return Failed;
      }
      SendFrame(previous, if t.Hits(SyncPrevious) then t.done else SIZE);
      if t.Hits(SyncPrevious) {
        return Failed;
      }
      assert previous[..] == fb[..];
      SendFrame(current, if t.Hits(SendCurrent) then t.done else SIZE);
      if t.Hits(SendCurrent) {
        return Failed;
      }
      assert current[..] == fb[..];
      if t.Hits(Activate) {
        Show(t.image);
        return Failed;
      }
      Show(current[..]);
      SendFrame(retained, SIZE);
      assert retained[..] == fb[..];
      valid, count := true, 0;
      return Done;
    }

    method Show(image: Frame)
      requires Valid()
      modifies shown
      ensures shown[..] == image
    {
      forall i | 0 <= i < SIZE {
        shown[i] := image[i];
      }
    }

    method RefreshPartial(r: Rect, t: Trouble) returns (outcome: Outcome)
      requires Valid()
      modifies retained, previous, current, shown
      ensures Valid() && (View(), outcome) == Partial(old(View()), r, t)
    {
      hide Copied, Driven, DrivenSome;
      if !ready {
        return InvalidState;
      }
      if !r.Accepted() {
        return InvalidArg;
      }
      var w := r.Native();
      if t.Hits(Configure) {
        return Failed;
      }
      CopyRows(current, w, if t.Hits(SendCurrent) then t.done else ROWS);
      if t.Hits(SendCurrent) || t.Hits(PowerOn) {
        return Failed;
      }
      Drive(!t.Hits(Activate), if t.Hits(Activate) then t.driven else {});
      if t.Hits(Activate) {
        return Failed;
      }
      CopyRows(previous, w, if t.Hits(SyncPrevious) then t.done else ROWS);
      if t.Hits(SyncPrevious) {
        return Failed;
      }
      CopyRows(current, w, if t.Hits(SyncCurrent) then t.done else ROWS);
      if t.Hits(SyncCurrent) || t.Hits(PowerOff) {
        return Failed;
      }
      if valid {
        CopyRows(retained, w, ROWS);
      }
      return Done;
    }

    method RefreshChanged(interval: uint32, t: Trouble) returns (outcome: Outcome)
      requires Valid()
      modifies this`valid, this`count, retained, previous, current, shown
      ensures Valid() && (View(), outcome) == Changed(old(View()), interval, t)
    {
      hide Partial, Full, Bounds;
      if !ready {
        return InvalidState;
      }
      if !valid {
        outcome := Refresh(t);
        return;
      }
      var found, r := FindChangedArea();
      if !found {
        return Done;
      }
      var limit := if interval > 0 then interval - 1 else 0;
      if interval > 0 && count >= limit {
        outcome := Refresh(t);
        return;
      }
      if r.y + r.height > HEIGHT {
        outcome := Refresh(t);
        return;
      }
      outcome := RefreshPartial(r, t);
      if outcome == Done {
        count := Wrap(count + 1);
      }
    }
  }
}
