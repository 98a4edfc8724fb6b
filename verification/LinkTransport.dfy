/** The Wi-Fi link's sockets (main.cpp, connection_transport.cpp) as a state machine
    over the steps of three kinds of tasks: the main loop, which connects and
    stops; the socket tasks, which report events; and the retirement task, which
    destroys clients off the main task. Any interleaving of their steps is a run. */
module LinkTransport {
  import opened Clock
  import opened HistoryRecord

  type Handle = nat

  const SLOTS: nat := 2
  const QUEUE_SIZE: nat := 8
  const TOKEN_RANGE: int := 0x8000_0000

  /** A created client: its slot and the connection attempt it was created by. */
  datatype Socket = Socket(slot: nat, attempt: nat)

  datatype Kind = Connected | Lost | Data

  /** A queued frame; `handle` is whose event it was. */
  datatype Frame = Frame(slot: nat, generation: uint32, kind: Kind, handle: Handle)

  /** One slot: its client, the retirement flag, the increments so far of the 32-bit
      generation, and the generation whose loss was last reported. */
  datatype Slot = Slot(ws: Option<Handle>, pending: bool, attempts: nat, reported: uint32)
  {
    function Generation(): uint32 { attempts % 0x1_0000_0000 }
  }

  /** Where the main loop is. It holds a handle in a local variable from the moment
      it clears the slot's until the handle is queued or put back. */
  datatype Main =
    | Idle
    | Bump(slot: nat, connect: bool)
    | Take(slot: nat, connect: bool)
    | Flag(slot: nat, held: Handle)
    | Send(slot: nat, held: Handle)
    | Undo(slot: nat, held: Handle)
    | Create(slot: nat)

  /** Where the retirement task is. */
  datatype Retirer = Waiting | Stopping(handle: Handle, slot: nat) | Destroying(handle: Handle, slot: nat) | Clearing(slot: nat)

  datatype World = World(
    slots: seq<Slot>, main: Main, retirer: Retirer,
    retired: seq<(Handle, nat)>, frames: seq<Frame>,
    sockets: map<Handle, Socket>, live: set<Handle>, busy: map<Handle, Kind>)
  {
    predicate Shaped() { |slots| == SLOTS }
  }

  /** The events' argument: generation and slot in one 32-bit word. */
  function Token(generation: uint32, slot: nat): uint32
    requires slot < SLOTS
  {
    (2 * generation) % 0x1_0000_0000 + slot
  }

  function TokenGeneration(token: uint32): uint32 { token / 2 }

  function TokenSlot(token: uint32): nat { token % 2 }

  /** The token drops the top bit: a socket can be heard if and only if its
      generation is below 2^31. */
  lemma TokenKeepsThirtyOneBits(generation: uint32, slot: nat)
    requires slot < SLOTS
    ensures TokenSlot(Token(generation, slot)) == slot
    ensures TokenGeneration(Token(generation, slot)) == generation % TOKEN_RANGE
    ensures TokenGeneration(Token(generation, slot)) == generation <==> generation < TOKEN_RANGE
  {
    if generation < TOKEN_RANGE {
      assert (2 * generation) % 0x1_0000_0000 == 2 * generation;
    } else {
      assert (2 * generation) % 0x1_0000_0000 == 2 * (generation - TOKEN_RANGE);
      assert generation % TOKEN_RANGE == generation - TOKEN_RANGE;
    }
  }

  // ------------------------------------------------------------------------ steps

  datatype Step =
    // main loop
    | BeginConnect(slot: nat)
    | BeginStop(slot: nat)
    | Bumped
    | Taken
    | Flagged
    | Queued(fits: bool)
    | Undone
    | Created(made: Option<Handle>)       // None: no host, no Wi-Fi, not paired, or the client could not be made
    | Dequeue
    // socket tasks
    | EventBegins(handle: Handle, kind: Kind)
    | EventEnds(handle: Handle, whole: bool)   // data: the message is complete
    // retirement task
    | Receive
    | Stopped
    | Destroyed
    | Cleared

  function SetSlot(w: World, slot: nat, s: Slot): World
    requires w.Shaped() && slot < SLOTS
  {
    w.(slots := w.slots[slot := s])
  }

  /** The event's token still names the current generation of its slot. */
  predicate Heard(w: World, handle: Handle)
    requires w.Shaped()
  {
    && handle in w.sockets && w.sockets[handle].slot < SLOTS
    && var k := w.sockets[handle];
       TokenGeneration(Token(k.attempt % 0x1_0000_0000, k.slot)) == w.slots[k.slot].Generation()
  }

  predicate Enabled(w: World, step: Step)
    requires w.Shaped()
  {
    match step
    case BeginConnect(slot) => w.main.Idle? && slot < SLOTS
    case BeginStop(slot) => w.main.Idle? && slot < SLOTS
    case Bumped => w.main.Bump? && w.main.slot < SLOTS
    case Taken => w.main.Take? && w.main.slot < SLOTS
    case Flagged => w.main.Flag? && w.main.slot < SLOTS
    case Queued(fits) => w.main.Send? && w.main.slot < SLOTS && fits == (|w.retired| < QUEUE_SIZE)
    case Undone => w.main.Undo? && w.main.slot < SLOTS
    case Created(made) => w.main.Create? && w.main.slot < SLOTS && (made.Some? ==> made.value !in w.sockets)
    case Dequeue => w.main.Idle? && w.frames != []
    case EventBegins(handle, _) =>
      && handle in w.live && handle !in w.busy && handle in w.sockets
      && w.retirer != Destroying(handle, w.sockets[handle].slot)
    case EventEnds(handle, _) => handle in w.busy && handle in w.sockets && w.sockets[handle].slot < SLOTS
    case Receive => w.retirer.Waiting? && w.retired != []
    case Stopped => w.retirer.Stopping? && w.retirer.handle !in w.busy     // stopping joins the socket's task
    case Destroyed => w.retirer.Destroying?
    case Cleared => w.retirer.Clearing? && w.retirer.slot < SLOTS
  }

  function Next(w: World, step: Step): World
    requires w.Shaped() && Enabled(w, step)
  {
    match step
    case BeginConnect(slot) => if w.slots[slot].pending then w else w.(main := Bump(slot, true))
    case BeginStop(slot) => w.(main := Bump(slot, false))
    case Bumped =>
      var s := w.slots[w.main.slot];
      SetSlot(w, w.main.slot, s.(attempts := s.attempts + 1)).(main := Take(w.main.slot, w.main.connect))
    case Taken =>
      var s := w.slots[w.main.slot];
      if s.ws.Some? then SetSlot(w, w.main.slot, s.(ws := None)).(main := Flag(w.main.slot, s.ws.value))
      else w.(main := if w.main.connect then Create(w.main.slot) else Idle)
    case Flagged =>
      SetSlot(w, w.main.slot, w.slots[w.main.slot].(pending := true)).(main := Send(w.main.slot, w.main.held))
    case Queued(fits) =>
      if fits then w.(retired := w.retired + [(w.main.held, w.main.slot)], main := Idle)
      else SetSlot(w, w.main.slot, w.slots[w.main.slot].(pending := false)).(main := Undo(w.main.slot, w.main.held))
    case Undone =>
      SetSlot(w, w.main.slot, w.slots[w.main.slot].(ws := Some(w.main.held))).(main := Idle)
    case Created(made) =>
      if made == None then w.(main := Idle)
      else
        var s := w.slots[w.main.slot];
        SetSlot(w, w.main.slot, s.(ws := made)).(
          main := Idle, live := w.live + {made.value},
          sockets := w.sockets[made.value := Socket(w.main.slot, s.attempts)])
    case Dequeue => w.(frames := w.frames[1..])
    case EventBegins(handle, kind) => if Heard(w, handle) then w.(busy := w.busy[handle := kind]) else w
    case EventEnds(handle, whole) => EndEvent(w, handle, whole)
    case Receive => w.(retirer := Stopping(w.retired[0].0, w.retired[0].1), retired := w.retired[1..])
    case Stopped => w.(retirer := Destroying(w.retirer.handle, w.retirer.slot))
    case Destroyed => w.(retirer := Clearing(w.retirer.slot), live := w.live - {w.retirer.handle})
    case Cleared =>
      SetSlot(w, w.retirer.slot, w.slots[w.retirer.slot].(pending := false)).(retirer := Waiting)
  }

  /** A disconnect or error is reported once a generation; a full queue drops. */
  function EndEvent(w: World, handle: Handle, whole: bool): World
    requires w.Shaped() && handle in w.busy && handle in w.sockets && w.sockets[handle].slot < SLOTS
  {
    var slot, kind := w.sockets[handle].slot, w.busy[handle];
    var generation: uint32 := w.sockets[handle].attempt % TOKEN_RANGE;
    var s := w.slots[slot];
    var rest := w.(busy := w.busy - {handle});
    if (kind.Lost? && s.reported == generation) || (kind.Data? && !whole) then rest
    else
      var told := if kind.Lost? then SetSlot(rest, slot, s.(reported := generation)) else rest;
      if |w.frames| < QUEUE_SIZE then told.(frames := told.frames + [Frame(slot, generation, kind, handle)]) else told
  }

  /** `on_frame` goes past its generation check. */
  predicate Accepted(w: World, f: Frame)
    requires w.Shaped()
  {
    f.slot < SLOTS && f.generation == w.slots[f.slot].Generation()
  }

  // -------------------------------------------------------------------- invariant

  predicate MainHolds(m: Main, slot: nat) { (m.Flag? || m.Send? || m.Undo?) && m.slot == slot }

  predicate InQueue(retired: seq<(Handle, nat)>, slot: nat) { exists i :: 0 <= i < |retired| && retired[i].1 == slot }

  predicate WithRetirer(r: Retirer, slot: nat) { !r.Waiting? && r.slot == slot }

  /** A slot's client is in one place only, and the retirement flag says whether
      that place is on the way to its end. */
  predicate OnePlace(w: World, slot: nat)
    requires w.Shaped() && slot < SLOTS
  {
    var s := w.slots[slot];
    && (s.ws.Some? ==> !MainHolds(w.main, slot) && !s.pending)
    && (MainHolds(w.main, slot) ==> !InQueue(w.retired, slot) && !WithRetirer(w.retirer, slot))
    && (InQueue(w.retired, slot) ==> !WithRetirer(w.retirer, slot))
    && (s.pending <==> InQueue(w.retired, slot) || WithRetirer(w.retirer, slot) || IsSending(w.main, slot))
    && ((w.main.Bump? || w.main.Take?) && w.main.connect && w.main.slot == slot ==> !s.pending)
    && (w.main.Create? && w.main.slot == slot ==> !s.pending && s.ws == None)
  }

  predicate IsSending(m: Main, slot: nat) { m.Send? && m.slot == slot }

  predicate Queueable(retired: seq<(Handle, nat)>) {
    && (forall i :: 0 <= i < |retired| ==> retired[i].1 < SLOTS)
    && (forall i, j :: 0 <= i < j < |retired| ==> retired[i].1 != retired[j].1)
  }

  predicate Placed(w: World) {
    && w.Shaped()
    && (!w.main.Idle? ==> w.main.slot < SLOTS) && (!w.retirer.Waiting? ==> w.retirer.slot < SLOTS)
    && Queueable(w.retired)
    && OnePlace(w, 0) && OnePlace(w, 1)
  }

  /** Someone is responsible for the handle: the slot, the main loop, the queue or
      the retirement task. */
  predicate Held(w: World, slot: nat, h: Handle) {
    || (slot < |w.slots| && w.slots[slot].ws == Some(h))
    || (MainHolds(w.main, slot) && w.main.held == h)
    || (h, slot) in w.retired
    || w.retirer == Stopping(h, slot) || w.retirer == Destroying(h, slot)
  }

  ghost predicate Accounted(w: World) {
    && (forall h :: h in w.live ==> h in w.sockets && w.sockets[h].slot < SLOTS && Held(w, w.sockets[h].slot, h))
    && (forall h: nat, slot: nat :: slot < SLOTS && Held(w, slot, h) ==> h in w.live && h in w.sockets && w.sockets[h].slot == slot)
    && (forall h :: h in w.busy ==> h in w.live && h in w.sockets && w.retirer != Destroying(h, w.sockets[h].slot))
  }
}
