/** What the tasks of the Wi-Fi link do get done: events of the present client are
    delivered in order, and a retired client is destroyed and its slot freed. */
module LinkProgress {
  import opened HistoryRecord
  import opened LinkTransport
  import opened LinkSafety

  /** Must the main loop be told of this event? A loss only once per connection attempt. */
  predicate Tells(w: World, handle: Handle, kind: Kind, whole: bool)
    requires w.Shaped() && handle in w.sockets && w.sockets[handle].slot < SLOTS
  {
    match kind
    case Connected => true
    case Data => whole
    case Lost => w.slots[w.sockets[handle].slot].reported != w.sockets[handle].attempt % TOKEN_RANGE
  }

  /** One event of one client, with nothing of another task in between. */
  function WithEvent(w: World, handle: Handle, kind: Kind, whole: bool): World
    requires w.Shaped() && Enabled(w, EventBegins(handle, kind)) && Heard(w, handle)
  {
    Next(Next(w, EventBegins(handle, kind)), EventEnds(handle, whole))
  }

  /** An event of the present client is delivered, last in the queue and once, if there
      is something to tell and room in the queue, and only then; of a loss it is noted
      that it has been told. An event of any other client changes nothing. */
  lemma EventIsDelivered(w: World, handle: Handle, kind: Kind, whole: bool)
    requires w.Shaped() && Enabled(w, EventBegins(handle, kind))
    ensures !Heard(w, handle) ==> Next(w, EventBegins(handle, kind)) == w
    ensures Heard(w, handle) ==>
              var n, k := WithEvent(w, handle, kind, whole), w.sockets[handle];
              && n.frames == (if Tells(w, handle, kind, whole) && |w.frames| < 8
                              then w.frames + [Frame(k.slot, k.attempt % TOKEN_RANGE, kind, handle)] else w.frames)
              && n == w.(frames := n.frames, slots := n.slots)
              && n.slots == (if kind.Lost? then w.slots[k.slot := w.slots[k.slot].(reported := k.attempt % TOKEN_RANGE)] else w.slots)
  {
  }

  /** While an event is handled its client is busy, so no second one begins. */
  lemma EventHoldsItsClient(w: World, handle: Handle, kind: Kind)
    requires w.Shaped() && Enabled(w, EventBegins(handle, kind)) && Heard(w, handle)
    ensures var n := Next(w, EventBegins(handle, kind));
            && n == w.(busy := n.busy) && n.busy == w.busy[handle := kind]
            && forall other: Kind :: !Enabled(n, EventBegins(handle, other))
  {
  }

  /** The frames are a queue: only the main loop takes one, the oldest, and whatever
      else happens nothing is lost from it or put in front. */
  lemma FramesAreAQueue(w: World, step: Step)
    requires w.Shaped() && Enabled(w, step)
    ensures var n := Next(w, step).frames;
            if step == Dequeue then w.frames == [w.frames[0]] + n
            else n == w.frames || (step.EventEnds? && |n| == |w.frames| + 1 && n[..|w.frames|] == w.frames)
  {
  }

  /** The retirement task's turn, once the client's last event is over. */
  function AfterTurn(w: World): (n: World)
    requires w.Shaped() && w.retirer.Waiting? && w.retired != [] && w.retired[0].1 < SLOTS && w.retired[0].0 !in w.busy
    ensures n.Shaped()
  {
    var a := Next(w, Receive);
    var b := Next(a, Stopped);
    var c := Next(b, Destroyed);
    Next(c, Cleared)
  }

  /** A turn destroys the client that has waited longest, takes it off the queue and
      frees its slot for the next connection; nothing else changes. */
  lemma TurnFreesTheSlot(w: World)
    requires Sound(w) && w.retirer.Waiting? && w.retired != [] && w.retired[0].0 !in w.busy
    ensures w.Shaped() && w.retired[0].1 < SLOTS
    ensures var n, (h, slot) := AfterTurn(w), w.retired[0];
            && h in w.live && n == w.(retired := w.retired[1..], live := w.live - {h}, slots := n.slots)
            && n.slots == w.slots[slot := w.slots[slot].(pending := false)]
            && (w.main.Idle? && w.slots[slot].ws == None ==> Next(n, BeginConnect(slot)) == n.(main := Bump(slot, true)))
  {
    FrontIsHeld(w);
  }

  lemma FrontIsHeld(w: World)
    requires Sound(w) && w.retired != []
    ensures w.Shaped() && w.retired[0].1 < SLOTS && w.retired[0].0 in w.live
  {
    assert w.retired[0] in w.retired;
    assert Held(w, w.retired[0].1, w.retired[0].0);
  }

  /** A stop: no client of the slot is heard any more, no queued frame of it is taken,
      and its client, if there was one, waits to be destroyed. */
  lemma StopSilences(w: World, slot: nat, h: Handle, f: Frame)
    requires Sound(w) && w.main.Idle? && slot < SLOTS && w.slots[slot].attempts + 1 < TOKEN_RANGE
    requires h in w.sockets && w.sockets[h].slot == slot && f in w.frames && f.slot == slot
    ensures var n := AfterStop(w, slot);
            && n.Shaped() && !Heard(n, h) && !Accepted(n, f) && n.slots[slot].ws == None
            && (w.slots[slot].ws.Some? ==> n.slots[slot].pending && n.retired == w.retired + [(w.slots[slot].ws.value, slot)])
            && n.slots[1 - slot] == w.slots[1 - slot]
  {
    hide Sound, Heard, Accepted;
    StopIsAPath(w, slot);
    AttemptIsPast(w, h);
    FrameIsLabelled(w, f);
    AttemptIsPast(w, f.handle);
    var n := AfterStop(w, slot);
    PastIsUnheard(n, h);
    PastIsNotTaken(n, f);
  }

  lemma Unwrapped(n: nat)
    requires n < TOKEN_RANGE
    ensures n % 0x1_0000_0000 == n && n % TOKEN_RANGE == n
  {
  }

  lemma PastIsUnheard(n: World, h: Handle)
    requires n.Shaped() && h in n.sockets && n.sockets[h].slot < SLOTS
    requires n.sockets[h].attempt < n.slots[n.sockets[h].slot].attempts < TOKEN_RANGE
    ensures !Heard(n, h)
  {
    hide Token, TokenGeneration, TokenSlot;
    var k := n.sockets[h];
    Unwrapped(k.attempt);
    Unwrapped(n.slots[k.slot].attempts);
    TokenKeepsThirtyOneBits(k.attempt, k.slot);
  }

  lemma PastIsNotTaken(n: World, f: Frame)
    requires n.Shaped() && Labelled(n, f) && f.slot < SLOTS
    requires n.sockets[f.handle].attempt < n.slots[f.slot].attempts < TOKEN_RANGE
    ensures !Accepted(n, f)
  {
  }

  lemma AttemptIsPast(w: World, h: Handle)
    requires Sound(w) && h in w.sockets
    ensures w.Shaped() && w.sockets[h].slot < SLOTS && w.sockets[h].attempt <= w.slots[w.sockets[h].slot].attempts
  {
    assert InDate(w, w.sockets[h], h);
  }

  lemma FrameIsLabelled(w: World, f: Frame)
    requires Sound(w) && f in w.frames
    ensures Labelled(w, f)
  {
    var i :| 0 <= i < |w.frames| && w.frames[i] == f;
    assert Labelled(w, w.frames[i]);
  }

  lemma PresentIsHeard(n: World, h: Handle)
    requires n.Shaped() && h in n.sockets && n.sockets[h].slot < SLOTS
    requires n.sockets[h].attempt == n.slots[n.sockets[h].slot].attempts < TOKEN_RANGE
    ensures Heard(n, h)
  {
    hide Token, TokenGeneration, TokenSlot;
    var k := n.sockets[h];
    Unwrapped(k.attempt);
    Unwrapped(n.slots[k.slot].attempts);
    TokenKeepsThirtyOneBits(k.attempt, k.slot);
  }

  /** A connect in a free slot makes the given client the one that is heard, and no
      other one `h`. */
  lemma ConnectIsHeard(w: World, slot: nat, made: Handle, h: Handle)
    requires Sound(w) && w.main.Idle? && slot < SLOTS && w.Shaped() && w.slots[slot].attempts + 1 < TOKEN_RANGE
    requires !w.slots[slot].pending && w.slots[slot].ws == None && made !in w.sockets
    ensures var n := AfterConnect(w, slot, Some(made));
            && n.Shaped() && n.slots[slot].ws == Some(made) && n.live == w.live + {made} && Heard(n, made)
            && (h in w.sockets && w.sockets[h].slot == slot ==> !Heard(n, h))
            && n.slots[1 - slot] == w.slots[1 - slot] && n.retired == w.retired && n.frames == w.frames
  {
    hide Sound, Heard;
    var n := AfterConnect(w, slot, Some(made));
    if h in w.sockets && w.sockets[h].slot == slot {
      AttemptIsPast(w, h);
      PastIsUnheard(n, h);
    }
    PresentIsHeard(n, made);
  }

  /** The client that a connect has just sent to the retirement task. */
  predicate Leaving(w: World, slot: nat, h: Handle) {
    w.Shaped() && slot < SLOTS && w.main.Idle? && w.retirer.Waiting? && w.retired == [(h, slot)] && h !in w.busy
  }

  /** A connection is replaced: a connect retires the old client, one turn of the
      retirement task destroys it, and the next connect makes the new one. */
  lemma Reconnects(w: World, slot: nat, before: Handle, made: Handle)
    requires Sound(w) && w.main.Idle? && slot < SLOTS && w.Shaped() && w.slots[slot].attempts + 2 < TOKEN_RANGE
    requires made !in w.sockets
    requires w.slots[slot].ws == Some(before) && before !in w.busy && w.retired == [] && w.retirer.Waiting?
    ensures Leaving(AfterConnect(w, slot, None), slot, before)
    ensures var n := AfterConnect(AfterTurn(AfterConnect(w, slot, None)), slot, Some(made));
            && n.Shaped() && n.slots[slot].ws == Some(made) && !n.slots[slot].pending && Heard(n, made)
            && n.live == w.live - {before} + {made} && n.slots[1 - slot] == w.slots[1 - slot]
  {
    hide Sound, AfterTurn;
    ConnectIsAPath(w, slot, None);
    ClientIsSettled(w, slot);
    var gone := AfterConnect(w, slot, None);
    TurnFreesTheSlot(gone);
    var freed := AfterTurn(gone);
    assert freed.slots[slot] == gone.slots[slot].(pending := false) && freed.sockets == w.sockets;
  }

  lemma ClientIsSettled(w: World, slot: nat)
    requires Sound(w) && slot < SLOTS && w.Shaped() && w.slots[slot].ws.Some?
    ensures !w.slots[slot].pending
  {
    assert OnePlace(w, slot);
  }
}
