/** Whatever the interleaving: one client a slot, none lost, and no frame of an old
    one reaches the session. */
module LinkSafety {
  import opened Clock
  import opened HistoryRecord
  import opened LinkTransport

  lemma QueueGrows(retired: seq<(Handle, nat)>, h: Handle, slot: nat)
    requires Queueable(retired) && slot < SLOTS && !InQueue(retired, slot)
    ensures var more := retired + [(h, slot)];
            Queueable(more) && (forall s: nat :: InQueue(more, s) <==> s == slot || InQueue(retired, s))
  {
    var more := retired + [(h, slot)];
    assert more[|retired|].1 == slot;
    forall s: nat | InQueue(retired, s)
      ensures InQueue(more, s)
    {
      var i :| 0 <= i < |retired| && retired[i].1 == s;
      assert more[i].1 == s;
    }
  }

  lemma QueueShrinks(retired: seq<(Handle, nat)>)
    requires Queueable(retired) && retired != []
    ensures Queueable(retired[1..])
    ensures forall s: nat :: InQueue(retired[1..], s) <==> s != retired[0].1 && InQueue(retired, s)
  {
    var less := retired[1..];
    forall s: nat | s != retired[0].1 && InQueue(retired, s)
      ensures InQueue(less, s)
    {
      var i :| 0 <= i < |retired| && retired[i].1 == s;
      assert less[i - 1].1 == s;
    }
    forall s: nat | InQueue(less, s)
      ensures s != retired[0].1 && InQueue(retired, s)
    {
      var i :| 0 <= i < |less| && less[i].1 == s;
      assert retired[i + 1].1 == s;
    }
  }

  predicate OfMain(step: Step) {
    step.BeginConnect? || step.BeginStop? || step.Bumped? || step.Taken? || step.Flagged? || step.Queued? || step.Undone? ||
    step.Created? || step.Dequeue?
  }

  lemma MainKeepsOnePlace(w: World, step: Step, slot: nat)
    requires Placed(w) && Enabled(w, step) && slot < SLOTS && OfMain(step) && step != Queued(true)
    ensures OnePlace(Next(w, step), slot)
  {
    hide InQueue, Queueable, Heard, EndEvent;
    assert OnePlace(w, slot);
  }

  lemma SlotStaysInOnePlace(w: World, step: Step, slot: nat)
    requires Placed(w) && Enabled(w, step) && slot < SLOTS
    ensures var n := Next(w, step);
            n.Shaped() && Queueable(n.retired) && OnePlace(n, slot)
  {
    hide InQueue, Queueable, Heard, EndEvent;
    assert OnePlace(w, slot);
    if step == Queued(true) {
      MainSlotFree(w);
      QueueGrows(w.retired, w.main.held, w.main.slot);
    } else if OfMain(step) {
      MainKeepsOnePlace(w, step, slot);
    } else if step.Receive? {
      FrontIsQueued(w.retired);
      QueueShrinks(w.retired);
    } else if step.EventEnds? {
      EventFrame(w, step.handle, step.whole);
    }
  }

  lemma MainSlotFree(w: World)
    requires Placed(w) && w.main.Send?
    ensures !InQueue(w.retired, w.main.slot)
  {
    hide InQueue, Queueable;
    assert OnePlace(w, w.main.slot);
  }

  lemma EventFrame(w: World, handle: Handle, whole: bool)
    requires w.Shaped() && handle in w.busy && handle in w.sockets && w.sockets[handle].slot < SLOTS
    ensures var n := EndEvent(w, handle, whole); var slot := w.sockets[handle].slot;
            && n.slots == w.slots[slot := w.slots[slot].(reported := n.slots[slot].reported)]
            && n == w.(slots := n.slots, frames := n.frames, busy := w.busy - {handle})
  {
  }

  lemma StepKeepsPlaces(w: World, step: Step)
    requires Placed(w) && Enabled(w, step)
    ensures Placed(Next(w, step))
  {
    hide InQueue, Queueable, Heard, OnePlace, EndEvent;
    SlotStaysInOnePlace(w, step, 0);
    SlotStaysInOnePlace(w, step, 1);
    if step.Receive? {
      FrontIsQueued(w.retired);
    } else if step.EventEnds? {
      EventFrame(w, step.handle, step.whole);
    }
  }

  lemma FrontIsQueued(retired: seq<(Handle, nat)>)
    requires Queueable(retired) && retired != []
    ensures InQueue(retired, retired[0].1) && retired[0].1 < SLOTS
  {
  }

  lemma NoThirdSlot(a: nat, b: nat, c: nat)
    requires a < SLOTS && b < SLOTS && c < SLOTS && a != b
    ensures c == a || c == b
  {
  }

  lemma TwoAtMost(q: seq<(Handle, nat)>)
    requires Queueable(q)
    ensures |q| <= SLOTS
    ensures |q| == SLOTS ==> InQueue(q, 0) && InQueue(q, 1)
  {
    if |q| > 2 {
      NoThirdSlot(q[0].1, q[1].1, q[2].1);
      assert false;
    } else if |q| == 2 {
      NoThirdSlot(q[0].1, q[1].1, 0);
      NoThirdSlot(q[0].1, q[1].1, 1);
    }
  }

  /** Two slots, one place each: the retirement queue never fills up, so the branch
      that puts the handle back is never needed. */
  lemma QueueNeverFills(w: World)
    requires Placed(w)
    ensures |w.retired| <= SLOTS
    ensures w.main.Send? ==> |w.retired| < SLOTS
  {
    hide InQueue;
    TwoAtMost(w.retired);
  }

  /** Steps that move a client from one hand to another. */
  lemma MoveKeepsHolders(w: World, step: Step, slot: nat, h: Handle)
    requires Placed(w) && Enabled(w, step) && slot < SLOTS && OfMain(step) && !step.Created?
    ensures Held(Next(w, step), slot, h) <==> Held(w, slot, h)
  {
    hide InQueue, Queueable;
    assert OnePlace(w, slot);
  }

  lemma ReceiveKeepsHolders(w: World, slot: nat, h: Handle)
    requires Placed(w) && Enabled(w, Receive) && slot < SLOTS
    ensures Held(Next(w, Receive), slot, h) <==> Held(w, slot, h)
  {
    hide InQueue, Queueable, OnePlace;
    assert w.retired == [w.retired[0]] + w.retired[1..];
  }

  lemma HoldersKept(w: World, step: Step, slot: nat, h: Handle)
    requires Placed(w) && Enabled(w, step) && slot < SLOTS && !step.Created? && !step.Destroyed?
    ensures Held(Next(w, step), slot, h) <==> Held(w, slot, h)
  {
    hide InQueue, Queueable, OnePlace, EndEvent, Heard;
    if OfMain(step) {
      MoveKeepsHolders(w, step, slot, h);
    } else if step.Receive? {
      ReceiveKeepsHolders(w, slot, h);
    } else if step.EventEnds? {
      EventFrame(w, step.handle, step.whole);
    }
  }

  lemma CreatedHolders(w: World, made: Option<Handle>, slot: nat, h: Handle)
    requires Placed(w) && Enabled(w, Created(made)) && slot < SLOTS
    ensures Held(Next(w, Created(made)), slot, h) <==> Held(w, slot, h) || (slot == w.main.slot && made == Some(h))
  {
    hide InQueue, Queueable;
    assert OnePlace(w, slot);
  }

  lemma DestroyedHolders(w: World, slot: nat, h: Handle)
    requires Placed(w) && Enabled(w, Destroyed) && slot < SLOTS
    ensures Held(Next(w, Destroyed), slot, h) ==> Held(w, slot, h) && !(slot == w.retirer.slot && h == w.retirer.handle)
    ensures Held(w, slot, h) && h != w.retirer.handle ==> Held(Next(w, Destroyed), slot, h)
  {
    hide Queueable;
    assert OnePlace(w, slot);
  }

  lemma CreatedKeepsAccounts(w: World, made: Option<Handle>)
    requires Placed(w) && Accounted(w) && Enabled(w, Created(made))
    ensures Accounted(Next(w, Created(made)))
  {
    hide InQueue, Queueable, OnePlace, Held;
    forall h: nat, slot: nat | slot < SLOTS
      ensures Held(Next(w, Created(made)), slot, h) <==> Held(w, slot, h) || (slot == w.main.slot && made == Some(h))
    {
      CreatedHolders(w, made, slot, h);
    }
  }

  lemma DestroyedKeepsAccounts(w: World)
    requires Placed(w) && Accounted(w) && Enabled(w, Destroyed)
    ensures Accounted(Next(w, Destroyed))
  {
    hide InQueue, Queueable, OnePlace, Held;
    var n := Next(w, Destroyed);
    RetirerHolds(w);
    forall h: nat, slot: nat | slot < SLOTS
      ensures Held(n, slot, h) ==> Held(w, slot, h) && !(slot == w.retirer.slot && h == w.retirer.handle)
      ensures Held(w, slot, h) && h != w.retirer.handle ==> Held(n, slot, h)
    {
      DestroyedHolders(w, slot, h);
    }
  }

  lemma StepKeepsAccounts(w: World, step: Step)
    requires Placed(w) && Accounted(w) && Enabled(w, step)
    ensures Accounted(Next(w, step))
  {
    hide InQueue, Queueable, OnePlace, EndEvent, Heard, Held;
    if step.Created? {
      CreatedKeepsAccounts(w, step.made);
    } else if step.Destroyed? {
      DestroyedKeepsAccounts(w);
    } else {
      var n := Next(w, step);
      forall h: nat, slot: nat | slot < SLOTS
        ensures Held(n, slot, h) <==> Held(w, slot, h)
      {
        HoldersKept(w, step, slot, h);
      }
      if step.EventEnds? {
        EventFrame(w, step.handle, step.whole);
      }
    }
  }

  lemma RetirerHolds(w: World)
    requires w.retirer.Destroying?
    ensures Held(w, w.retirer.slot, w.retirer.handle)
  {
  }

  // ------------------------------------------------------------------ generations

  predicate Moving(m: Main, slot: nat) { !m.Idle? && !m.Bump? && m.slot == slot }

  /** Nobody but the slot's client is of the current connection attempt; a frame
      carries the attempt of the client it came from. */
  predicate Dated(w: World) {
    && w.Shaped()
    && (forall h :: h in w.sockets ==> InDate(w, w.sockets[h], h))
    && (forall i :: 0 <= i < |w.frames| ==> Labelled(w, w.frames[i]))
  }

  predicate InDate(w: World, k: Socket, h: Handle)
    requires w.Shaped()
  {
    && k.slot < SLOTS && k.attempt <= w.slots[k.slot].attempts
    && (k.attempt == w.slots[k.slot].attempts ==> w.slots[k.slot].ws == Some(h) && !Moving(w.main, k.slot))
  }

  predicate Labelled(w: World, f: Frame) {
    f.handle in w.sockets && w.sockets[f.handle].slot == f.slot && f.generation == w.sockets[f.handle].attempt % TOKEN_RANGE
  }

  lemma SocketStaysInDate(w: World, step: Step, k: Socket, h: Handle)
    requires Placed(w) && Enabled(w, step) && InDate(w, k, h)
    ensures InDate(Next(w, step), k, h)
  {
    hide InQueue, Queueable, Heard, EndEvent;
    assert OnePlace(w, k.slot);
    if step.EventEnds? {
      EventFrame(w, step.handle, step.whole);
    }
  }

  lemma NewSocketInDate(w: World, made: Handle)
    requires Placed(w) && Enabled(w, Created(Some(made)))
    ensures var n := Next(w, Created(Some(made))); InDate(n, n.sockets[made], made)
  {
  }

  lemma FramesLabelled(w: World, step: Step)
    requires Placed(w) && Dated(w) && Enabled(w, step)
    ensures forall i :: 0 <= i < |Next(w, step).frames| ==> Labelled(Next(w, step), Next(w, step).frames[i])
  {
    hide Placed, InDate, Heard;
  }

  lemma StepKeepsDates(w: World, step: Step)
    requires Placed(w) && Dated(w) && Enabled(w, step)
    ensures Dated(Next(w, step))
  {
    hide OnePlace, Queueable, InDate, Labelled, Heard, EndEvent;
    var n := Next(w, step);
    StepKeepsPlaces(w, step);
    forall h | h in n.sockets
      ensures InDate(n, n.sockets[h], h)
    {
      if h in w.sockets {
        SocketStaysInDate(w, step, w.sockets[h], h);
        SocketsStay(w, step, h);
      } else {
        OnlyCreatedAdds(w, step, h);
        NewSocketInDate(w, h);
      }
    }
    FramesLabelled(w, step);
  }

  lemma SocketsStay(w: World, step: Step, h: Handle)
    requires Placed(w) && Enabled(w, step) && h in w.sockets
    ensures h in Next(w, step).sockets && Next(w, step).sockets[h] == w.sockets[h]
  {
    hide OnePlace, Queueable, Heard;
  }

  lemma OnlyCreatedAdds(w: World, step: Step, h: Handle)
    requires Placed(w) && Enabled(w, step) && h !in w.sockets && h in Next(w, step).sockets
    ensures step == Created(Some(h))
  {
    hide OnePlace, Queueable, Heard;
  }

  // ------------------------------------------------------------------------ reports

  predicate Bounded(w: World) { w.Shaped() && w.slots[0].attempts < TOKEN_RANGE && w.slots[1].attempts < TOKEN_RANGE }

  predicate Reported(w: World, slot: nat)
    requires w.Shaped() && slot < SLOTS
  {
    && w.slots[slot].reported <= w.slots[slot].attempts
    && (forall h :: h in w.live && h in w.sockets && w.sockets[h].slot == slot ==>
          w.slots[slot].reported <= w.sockets[h].attempt)
  }

  /** Everything that holds in every reachable state. */
  ghost predicate Sound(w: World) {
    && Placed(w) && Accounted(w) && Dated(w) && !w.main.Undo?
    && (Bounded(w) ==> Reported(w, 0) && Reported(w, 1))
  }

  lemma OneHolder(w: World, slot: nat, g: Handle, h: Handle)
    requires Placed(w) && slot < SLOTS && Held(w, slot, g) && Held(w, slot, h)
    ensures g == h
  {
    assert OnePlace(w, slot);
  }

  /** At most one created and not yet destroyed client a slot. */
  lemma OneClient(w: World, g: Handle, h: Handle)
    requires Placed(w) && Accounted(w) && g in w.live && h in w.live && w.sockets[g].slot == w.sockets[h].slot
    ensures g == h
  {
    hide Placed, Held;
    OneHolder(w, w.sockets[g].slot, g, h);
  }

  lemma AttemptsGrow(w: World, step: Step, slot: nat)
    requires Placed(w) && Enabled(w, step) && slot < SLOTS
    ensures Next(w, step).Shaped() && w.slots[slot].attempts <= Next(w, step).slots[slot].attempts
    ensures !step.EventEnds? ==> Next(w, step).slots[slot].reported == w.slots[slot].reported
  {
    hide OnePlace, Queueable, Heard;
  }

  /** The event reports the loss of its slot's connection. */
  predicate Reports(w: World, step: Step, slot: nat)
    requires w.Shaped() && Enabled(w, step) && slot < SLOTS
  {
    && step.EventEnds? && w.sockets[step.handle].slot == slot && w.busy[step.handle].Lost?
    && w.slots[slot].reported != w.sockets[step.handle].attempt % TOKEN_RANGE
  }

  lemma EventReports(w: World, step: Step, slot: nat)
    requires Sound(w) && Enabled(w, step) && step.EventEnds? && slot < SLOTS && Bounded(w)
    ensures var n := Next(w, step);
            && n.Shaped() && Reported(n, slot)
            && (if Reports(w, step, slot)
                then w.slots[slot].reported < n.slots[slot].reported == w.sockets[step.handle].attempt
                else n.slots[slot].reported == w.slots[slot].reported)
  {
    hide Held, Placed, Dated;
    BusyIsDated(w, step.handle);
    EventFrame(w, step.handle, step.whole);
    var n := Next(w, step);
    assert n.live == w.live && n.sockets == w.sockets;
    if Reports(w, step, slot) {
      forall h | h in n.live && n.sockets[h].slot == slot
        ensures h == step.handle
      {
        OneClient(w, h, step.handle);
      }
    }
  }

  lemma BusyIsDated(w: World, h: Handle)
    requires Sound(w) && Bounded(w) && h in w.busy
    ensures w.Shaped() && h in w.live && h in w.sockets && w.sockets[h].slot < SLOTS
    ensures w.sockets[h].attempt % TOKEN_RANGE == w.sockets[h].attempt <= w.slots[w.sockets[h].slot].attempts
  {
    hide Held, Placed;
    assert InDate(w, w.sockets[h], h);
  }

  lemma ReportsKept(w: World, step: Step, slot: nat)
    requires Sound(w) && Enabled(w, step) && slot < SLOTS && Bounded(w) && !step.EventEnds?
    ensures var n := Next(w, step); n.Shaped() && Reported(n, slot)
  {
    hide Placed, Accounted, Dated, Held, Heard;
    AttemptsGrow(w, step, slot);
    var n := Next(w, step);
    forall h | h in n.live && h in n.sockets && n.sockets[h].slot == slot
      ensures n.slots[slot].reported <= n.sockets[h].attempt
    {
      if step != Created(Some(h)) {
        LiveBefore(w, step, h);
      }
    }
  }

  lemma LiveBefore(w: World, step: Step, h: Handle)
    requires Placed(w) && Enabled(w, step) && h in Next(w, step).live && h in Next(w, step).sockets && step != Created(Some(h))
    ensures h in w.live && h in w.sockets && w.sockets[h] == Next(w, step).sockets[h]
  {
    hide OnePlace, Queueable, Heard;
  }

  lemma StepKeepsSound(w: World, step: Step)
    requires Sound(w) && Enabled(w, step)
    ensures Sound(Next(w, step))
  {
    hide Placed, Accounted, Dated, Reported, EndEvent;
    PlacedShape(w);
    StepKeepsPlaces(w, step);
    StepKeepsAccounts(w, step);
    StepKeepsDates(w, step);
    QueueNeverFills(w);
    NeverUndoes(w, step);
    AttemptsGrow(w, step, 0);
    AttemptsGrow(w, step, 1);
    if Bounded(Next(w, step)) {
      if step.EventEnds? {
        EventReports(w, step, 0);
        EventReports(w, step, 1);
      } else {
        ReportsKept(w, step, 0);
        ReportsKept(w, step, 1);
      }
    }
  }

  lemma NeverUndoes(w: World, step: Step)
    requires Placed(w) && Enabled(w, step) && !w.main.Undo?
    ensures !Next(w, step).main.Undo?
  {
    hide OnePlace, Heard;
    QueueNeverFills(w);
  }

  // --------------------------------------------------------------------------- runs

  ghost predicate IsRun(worlds: seq<World>, steps: seq<Step>) {
    && |worlds| == |steps| + 1
    && (forall i :: 0 <= i < |steps| ==>
          worlds[i].Shaped() && Enabled(worlds[i], steps[i]) && worlds[i + 1] == Next(worlds[i], steps[i]))
  }

  const START: World := World([Slot(None, false, 0, 0), Slot(None, false, 0, 0)], Idle, Waiting, [], [], map[], {}, map[])

  lemma {:induction false} RunIsSound(worlds: seq<World>, steps: seq<Step>, n: nat)
    requires IsRun(worlds, steps) && worlds[0] == START && n <= |steps|
    ensures Sound(worlds[n])
    decreases n
  {
    hide Sound, Next, Enabled;
    if n == 0 {
      StartIsSound();
    } else {
      RunIsSound(worlds, steps, n - 1);
      StepKeepsSound(worlds[n - 1], steps[n - 1]);
    }
  }

  lemma StartIsSound()
    ensures Sound(START)
  {
  }

  /** In every interleaving of the main loop, the socket events and the retirement
      task: a slot has at most one client that was created and is not destroyed,
      each is in the hands of exactly one task, and the retirement queue has room
      whenever one is handed over. */
  lemma OneClientPerSlotNoneLost(worlds: seq<World>, steps: seq<Step>, n: nat)
    requires IsRun(worlds, steps) && worlds[0] == START && n <= |steps|
    ensures forall h :: h in worlds[n].live ==> h in worlds[n].sockets
    ensures var w := worlds[n];
            && (forall g, h :: g in w.live && h in w.live && w.sockets[g].slot == w.sockets[h].slot ==> g == h)
            && (forall h :: h in w.live ==> Held(w, w.sockets[h].slot, h))
            && (w.main.Send? ==> |w.retired| < QUEUE_SIZE) && !w.main.Undo?
  {
    hide Placed, Dated, Reported, Held, Next, Enabled;
    RunIsSound(worlds, steps, n);
    var w := worlds[n];
    QueueNeverFills(w);
    forall g, h | g in w.live && h in w.live && w.sockets[g].slot == w.sockets[h].slot
      ensures g == h
    {
      OneClient(w, g, h);
    }
  }

  /** A frame that passes the generation check of the session came from the client
      the slot has now, never from a retired one; for fewer than 2^31 attempts. */
  lemma FramesAreCurrent(worlds: seq<World>, steps: seq<Step>, n: nat, f: Frame)
    requires IsRun(worlds, steps) && worlds[0] == START && n <= |steps|
    requires f in worlds[n].frames && Bounded(worlds[n]) && Accepted(worlds[n], f)
    ensures f.handle in worlds[n].live && worlds[n].slots[f.slot].ws == Some(f.handle)
  {
    hide Placed, Reported, Next, Enabled;
    RunIsSound(worlds, steps, n);
    var w := worlds[n];
    assert Labelled(w, f) && InDate(w, w.sockets[f.handle], f.handle);
    assert Held(w, f.slot, f.handle);
  }

  /** The current client is heard if and only if its generation, as the event
      argument can carry it, is below 2^31: after that many attempts every event of
      every client is taken for a stale one. */
  lemma CurrentClientIsHeard(w: World, h: Handle)
    requires w.Shaped() && h in w.sockets && w.sockets[h].slot < SLOTS
    requires w.sockets[h].attempt == w.slots[w.sockets[h].slot].attempts
    ensures Heard(w, h) <==> w.slots[w.sockets[h].slot].Generation() < TOKEN_RANGE
  {
    hide Token, TokenGeneration;
    TokenKeepsThirtyOneBits(w.slots[w.sockets[h].slot].Generation(), w.sockets[h].slot);
  }

  /** While a client is being stopped, and after, it reports nothing: an event in
      progress belongs to a live client, and no two of one slot overlap, so the
      reassembly buffer of a slot has one writer. */
  lemma OneWriterPerSlot(worlds: seq<World>, steps: seq<Step>, n: nat, g: Handle, h: Handle)
    requires IsRun(worlds, steps) && worlds[0] == START && n <= |steps|
    requires g in worlds[n].busy && h in worlds[n].busy
    ensures g in worlds[n].sockets && h in worlds[n].sockets
    ensures worlds[n].sockets[g].slot == worlds[n].sockets[h].slot ==> g == h
  {
    hide Placed, Dated, Reported, Held, Next, Enabled;
    RunIsSound(worlds, steps, n);
    if worlds[n].sockets[g].slot == worlds[n].sockets[h].slot {
      OneClient(worlds[n], g, h);
    }
  }

  lemma {:induction false} ReportsGrow(worlds: seq<World>, steps: seq<Step>, slot: nat, i: nat, j: nat)
    requires IsRun(worlds, steps) && worlds[0] == START && i <= j <= |steps| && slot < SLOTS && Bounded(worlds[j])
    ensures worlds[i].Shaped() && worlds[j].Shaped() && Bounded(worlds[i])
    ensures worlds[i].slots[slot].reported <= worlds[j].slots[slot].reported
    decreases j - i
  {
    hide Placed, Dated, Accounted, Reported, Next, Enabled;
    RunIsSound(worlds, steps, j);
    PlacedShape(worlds[j]);
    if i < j {
      RunIsSound(worlds, steps, j - 1);
      PlacedShape(worlds[j - 1]);
      AttemptsGrow(worlds[j - 1], steps[j - 1], 0);
      AttemptsGrow(worlds[j - 1], steps[j - 1], 1);
      ReportsGrow(worlds, steps, slot, i, j - 1);
      if steps[j - 1].EventEnds? {
        EventReports(worlds[j - 1], steps[j - 1], slot);
      }
      assert worlds[j] == Next(worlds[j - 1], steps[j - 1]);
    }
  }

  lemma PlacedShape(w: World)
    requires Placed(w)
    ensures w.Shaped()
  {
  }

  /** Errors and disconnects of one connection are reported once: the reports of a
      slot carry strictly increasing generations. */
  lemma LossIsReportedOnce(worlds: seq<World>, steps: seq<Step>, slot: nat, i: nat, j: nat)
    requires IsRun(worlds, steps) && worlds[0] == START && i < j < |steps| && slot < SLOTS && Bounded(worlds[j])
    requires worlds[i].Shaped() && Reports(worlds[i], steps[i], slot) && worlds[j].Shaped() && Reports(worlds[j], steps[j], slot)
    ensures worlds[i].sockets[steps[i].handle].attempt < worlds[j].sockets[steps[j].handle].attempt
  {
    hide Placed, Dated, Accounted, Reported, Next;
    RunIsSound(worlds, steps, i);
    RunIsSound(worlds, steps, j);
    ReportsGrow(worlds, steps, slot, i, j);
    ReportsGrow(worlds, steps, slot, i + 1, j);
    EventReports(worlds[i], steps[i], slot);
    EventReports(worlds[j], steps[j], slot);
    assert worlds[i + 1] == Next(worlds[i], steps[i]);
  }

  // -------------------------------------------------- the main loop's own functions

  /** A client handed over for retirement, or put back if the queue is full. */
  function Retired(w: World, slot: nat, handle: Handle): World
    requires w.Shaped() && slot < SLOTS
  {
    var s := w.slots[slot];
    if |w.retired| < QUEUE_SIZE then
      SetSlot(w, slot, Slot(None, true, s.attempts + 1, s.reported)).(retired := w.retired + [(handle, slot)])
    else SetSlot(w, slot, Slot(Some(handle), false, s.attempts + 1, s.reported))
  }

  /** What a connect leaves when nothing runs in between: nothing while a retirement
      is pending; the old client queued for retirement if there is one; otherwise
      the new client, if the calls to the network stack got that far. */
  function AfterConnect(w: World, slot: nat, made: Option<Handle>): World
    requires w.Shaped() && slot < SLOTS
  {
    var s := w.slots[slot];
    if s.pending then w
    else if s.ws.Some? then Retired(w, slot, s.ws.value)
    else if made == None then SetSlot(w, slot, s.(attempts := s.attempts + 1))
    else
      SetSlot(w, slot, Slot(made, false, s.attempts + 1, s.reported)).(
        live := w.live + {made.value}, sockets := w.sockets[made.value := Socket(slot, s.attempts + 1)])
  }

  function AfterStop(w: World, slot: nat): World
    requires w.Shaped() && slot < SLOTS
  {
    var s := w.slots[slot];
    if s.ws.Some? then Retired(w, slot, s.ws.value)
    else SetSlot(w, slot, s.(attempts := s.attempts + 1))
  }

  lemma Advances(w: World, step: Step, n: World)
    requires Sound(w) && Enabled(w, step) && n == Next(w, step)
    ensures Sound(n) && n.Shaped()
  {
    hide Next, Enabled;
    StepKeepsSound(w, step);
    PlacedShape(n);
  }

  lemma RetireIsAPath(w: World, n: World)
    requires Sound(w) && w.main.Flag? && w.main.slot < SLOTS
    requires var s := w.slots[w.main.slot];
             n == SetSlot(w, w.main.slot, s.(pending := true)).(main := Idle, retired := w.retired + [(w.main.held, w.main.slot)])
    ensures Sound(n) && |w.retired| < SLOTS
  {
    hide Placed, Accounted, Dated, Reported;
    PlacedShape(w);
    var flagged := Next(w, Flagged);
    Advances(w, Flagged, flagged);
    QueueNeverFills(flagged);
    Advances(flagged, Queued(true), Next(flagged, Queued(true)));
    assert n == Next(flagged, Queued(true));
  }

  /** Both are paths of the steps above, so they keep whatever every step keeps. */
  lemma ConnectIsAPath(w: World, slot: nat, made: Option<Handle>)
    requires Sound(w) && w.main.Idle? && slot < SLOTS && (made.Some? ==> made.value !in w.sockets)
    ensures Sound(AfterConnect(w, slot, made)) && AfterConnect(w, slot, made).main.Idle?
    ensures !w.slots[slot].pending && w.slots[slot].ws.Some? ==> |w.retired| < QUEUE_SIZE
  {
    hide Placed, Accounted, Dated, Reported;
    PlacedShape(w);
    QueueNeverFills(w);
    if !w.slots[slot].pending {
      var begun := Next(w, BeginConnect(slot));
      Advances(w, BeginConnect(slot), begun);
      var bumped := Next(begun, Bumped);
      Advances(begun, Bumped, bumped);
      var taken := Next(bumped, Taken);
      Advances(bumped, Taken, taken);
      if w.slots[slot].ws.Some? {
        RetireIsAPath(taken, AfterConnect(w, slot, made));
      } else {
        var created := Next(taken, Created(made));
        Advances(taken, Created(made), created);
        assert created == AfterConnect(w, slot, made);
      }
    }
  }

  lemma StopIsAPath(w: World, slot: nat)
    requires Sound(w) && w.main.Idle? && slot < SLOTS
    ensures Sound(AfterStop(w, slot)) && AfterStop(w, slot).main.Idle?
    ensures w.slots[slot].ws.Some? ==> |w.retired| < QUEUE_SIZE
  {
    hide Placed, Accounted, Dated, Reported;
    PlacedShape(w);
    QueueNeverFills(w);
    var begun := Next(w, BeginStop(slot));
    Advances(w, BeginStop(slot), begun);
    var bumped := Next(begun, Bumped);
    Advances(begun, Bumped, bumped);
    var taken := Next(bumped, Taken);
    Advances(bumped, Taken, taken);
    if w.slots[slot].ws.Some? {
      StopFlagPending(w, slot);
      RetireIsAPath(taken, AfterStop(w, slot));
    } else {
      assert taken == AfterStop(w, slot);
    }
  }

  lemma StopFlagPending(w: World, slot: nat)
    requires Sound(w) && slot < SLOTS
    ensures w.slots[slot].ws.Some? ==> !w.slots[slot].pending
  {
    assert OnePlace(w, slot);
  }

  /** `connect_scale`, `stop_scale_transport` and `retire_transport_async`. */
  class Connections {
    var w: World

    constructor ()
      ensures w == START && Sound(w)
    {
      StartIsSound();
      w := START;
    }

    method RetireAsync(slot: nat, handle: Handle) returns (ok: bool)
      requires w.Shaped() && slot < SLOTS
      modifies this
      ensures ok == (|old(w).retired| < QUEUE_SIZE)
      ensures ok ==> w == SetSlot(old(w), slot, old(w).slots[slot].(pending := true)).(retired := old(w).retired + [(handle, slot)])
      ensures !ok ==> w == SetSlot(old(w), slot, old(w).slots[slot].(pending := false))
    {
      w := SetSlot(w, slot, w.slots[slot].(pending := true));
      if |w.retired| >= QUEUE_SIZE {
        w := SetSlot(w, slot, w.slots[slot].(pending := false));
        return false;
      }
      w := w.(retired := w.retired + [(handle, slot)]);
      return true;
    }

    method StopTransport(slot: nat)
      requires w.Shaped() && slot < SLOTS
      modifies this
      ensures w == AfterStop(old(w), slot)
      ensures Sound(old(w)) && old(w).main.Idle? ==> Sound(w)
    {
      hide Sound;
      if Sound(w) && w.main.Idle? {
        StopIsAPath(w, slot);
      }
      w := SetSlot(w, slot, w.slots[slot].(attempts := w.slots[slot].attempts + 1));
      var oldWs := w.slots[slot].ws;
      w := SetSlot(w, slot, w.slots[slot].(ws := None));
      if oldWs.Some? {
        var ok := RetireAsync(slot, oldWs.value);
        if !ok {
          w := SetSlot(w, slot, w.slots[slot].(ws := oldWs));
        }
      }
      assert w.slots == AfterStop(old(w), slot).slots;
    }

    /** `made` is the client that the network stack gives, if the call gets there. */
    method ConnectScale(slot: nat, made: Option<Handle>)
      requires w.Shaped() && slot < SLOTS
      modifies this
      ensures w == AfterConnect(old(w), slot, made)
      ensures Sound(old(w)) && old(w).main.Idle? && (made.Some? ==> made.value !in old(w).sockets) ==> Sound(w)
    {
      hide Sound;
      if Sound(w) && w.main.Idle? && (made.Some? ==> made.value !in w.sockets) {
        ConnectIsAPath(w, slot, made);
      }
      if w.slots[slot].pending {
        return;
      }
      w := SetSlot(w, slot, w.slots[slot].(attempts := w.slots[slot].attempts + 1));
      var oldWs := w.slots[slot].ws;
      if oldWs.Some? {
        w := SetSlot(w, slot, w.slots[slot].(ws := None));
        var ok := RetireAsync(slot, oldWs.value);
        if !ok {
          w := SetSlot(w, slot, w.slots[slot].(ws := oldWs));
        }
        assert w.slots == AfterConnect(old(w), slot, made).slots;
        return;
      }
      if made.Some? {
        var s := w.slots[slot];
        w := SetSlot(w, slot, s.(ws := made)).(
          live := w.live + {made.value}, sockets := w.sockets[made.value := Socket(slot, s.attempts)]);
      }
      assert w.slots == AfterConnect(old(w), slot, made).slots;
    }
  }
}
