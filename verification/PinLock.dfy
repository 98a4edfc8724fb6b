/** The tap's PIN lock (pin_lock.cpp): a stored digest, five tries, then a pause.
    The hash is ideal: two digests are equal when salt and PIN are. */
module PinLock {
  import opened Clock
  import opened HistoryRecord

  const COOLDOWN: int := 30000
  const TRIES: nat := 5

  type Pin = seq<char>

  datatype Digest = Blank | Hash(salt: nat, pin: Pin)

  datatype Credential = Credential(salt: nat, digest: Digest)

  const NO_RECORD: Credential := Credential(0, Blank)

  /** The non-volatile store: nothing, a record, or something that is not one. */
  datatype Store = Absent | Kept(record: Credential) | Damaged

  datatype Result = Good | WrongPin | Wait | InvalidPin | StorageError

  datatype Lock = Lock(
    saved: Credential, enabled: bool, closed: bool, storageOk: bool, cooling: bool, failures: nat, failedAt: uint32)

  predicate ValidPin(pin: Option<Pin>) {
    pin.Some? && |pin.value| == 4 && forall i :: 0 <= i < 4 ==> '0' <= pin.value[i] <= '9'
  }

  /** `init`: a store that cannot be read locks. */
  function Boot(store: Store, readable: bool): Lock {
    if !readable || store.Damaged? then Lock(NO_RECORD, true, true, false, false, 0, 0)
    else if store.Absent? then Lock(NO_RECORD, false, false, true, false, 0, 0)
    else Lock(store.record, true, true, true, false, 0, 0)
  }

  /** `retry_seconds`, and what it changes. */
  function Retried(l: Lock, now: uint32): (Lock, nat) {
    if !l.cooling then (l, 0)
    else if Elapsed(now, l.failedAt) >= COOLDOWN then (l.(cooling := false, failures := 0), 0)
    else (l, (COOLDOWN - Elapsed(now, l.failedAt) + 999) / 1000)
  }

  predicate Matches(l: Lock, pin: Option<Pin>, hashes: bool) {
    l.enabled && ValidPin(pin) && hashes && l.saved.digest == Hash(l.saved.salt, pin.value)
  }

  /** `check`, with the clock read before the comparison and after it. */
  function Checked(l: Lock, pin: Option<Pin>, hashes: bool, before: uint32, after: uint32): (Lock, Result) {
    if !l.storageOk then (l, StorageError)
    else
      var (r, seconds) := Retried(l, before);
      if seconds > 0 then (r, Wait)
      else if Matches(r, pin, hashes) then (r.(failures := 0, cooling := false), Good)
      else if r.failures + 1 >= TRIES then (r.(failures := r.failures + 1, failedAt := after, cooling := true), Wait)
      else (r.(failures := r.failures + 1), WrongPin)
  }

  /** The check got as far as comparing, and the PIN was wrong. */
  predicate Evaluated(l: Lock, pin: Option<Pin>, hashes: bool, before: uint32) {
    l.storageOk && Retried(l, before).1 == 0 && !Matches(Retried(l, before).0, pin, hashes)
  }

  function Unlocked(l: Lock, pin: Option<Pin>, hashes: bool, before: uint32, after: uint32): (Lock, Result) {
    var (c, r) := Checked(l, pin, hashes, before, after);
    if r.Good? then (c.(closed := false), r) else (c, r)
  }

  function Sealed(salt: nat, pin: Pin): Credential { Credential(salt, Hash(salt, pin)) }

  function Changed(l: Lock, store: Store, current: Option<Pin>, pin: Option<Pin>, salt: nat,
                   hashes: bool, sealing: bool, persists: bool, before: uint32, after: uint32): (Lock, Store, Result)
  {
    if !l.storageOk then (l, store, StorageError)
    else if !ValidPin(pin) then (l, store, InvalidPin)
    else
      var (c, r) := if l.enabled then Checked(l, current, hashes, before, after) else (l, Good);
      if !r.Good? then (c, store, r)
      else if !sealing || !persists then (c, store, StorageError)
      else (c.(saved := Sealed(salt, pin.value), failures := 0, cooling := false, enabled := true, closed := true),
            Kept(Sealed(salt, pin.value)), Good)
  }

  function Removed(l: Lock, store: Store, current: Option<Pin>, hashes: bool, persists: bool, before: uint32, after: uint32)
    : (Lock, Store, Result)
  {
    var (c, r) := Checked(l, current, hashes, before, after);
    if !r.Good? then (c, store, r)
    else if !persists then (c, store, StorageError)
    else (c.(saved := NO_RECORD, enabled := false, closed := false), Absent, Good)
  }

  class PinLock {
    var saved: Credential
    var enabled: bool
    var closed: bool
    var storageOk: bool
    var cooling: bool
    var failures: nat
    var failedAt: uint32
    var store: Store

    ghost function View(): Lock
      reads this
    {
      Lock(saved, enabled, closed, storageOk, cooling, failures, failedAt)
    }

    constructor (stored: Store, readable: bool)
      ensures store == stored && View() == Boot(stored, readable)
    {
      store := stored;
      saved, failures, cooling, storageOk, enabled, closed, failedAt := NO_RECORD, 0, false, true, false, false, 0;
      if readable && stored.Kept? {
        saved, enabled, closed := stored.record, true, true;
      } else if !readable || stored.Damaged? {
        storageOk, enabled, closed := false, true, true;
      }
    }

    method RetrySeconds(now: uint32) returns (seconds: nat)
      modifies this`cooling, this`failures
      ensures (View(), seconds) == Retried(old(View()), now)
    {
      if !cooling {
        return 0;
      }
      var elapsed := Elapsed(now, failedAt);
      if elapsed >= COOLDOWN {
        cooling, failures := false, 0;
        return 0;
      }
      return (COOLDOWN - elapsed + 999) / 1000;
    }

    method Check(pin: Option<Pin>, hashes: bool, before: uint32, after: uint32) returns (r: Result)
      modifies this`cooling, this`failures, this`failedAt
      ensures (View(), r) == Checked(old(View()), pin, hashes, before, after)
    {
      if !storageOk {
        return StorageError;
      }
      var seconds := RetrySeconds(before);
      if seconds > 0 {
        return Wait;
      }
      if enabled && ValidPin(pin) && hashes && saved.digest == Hash(saved.salt, pin.value) {
        failures, cooling := 0, false;
        return Good;
      }
      failures := failures + 1;
      if failures >= TRIES {
        failedAt, cooling := after, true;
        return Wait;
      }
      return WrongPin;
    }

    method Unlock(pin: Option<Pin>, hashes: bool, before: uint32, after: uint32) returns (r: Result)
      modifies this
      ensures (View(), r) == Unlocked(old(View()), pin, hashes, before, after) && store == old(store)
    {
      r := Check(pin, hashes, before, after);
      if r.Good? {
        closed := false;
      }
    }

    method Change(current: Option<Pin>, pin: Option<Pin>, salt: nat, hashes: bool, sealing: bool, persists: bool,
                  before: uint32, after: uint32) returns (r: Result)
      modifies this
      ensures (View(), store, r) == Changed(old(View()), old(store), current, pin, salt, hashes, sealing, persists, before, after)
    {
      if !storageOk {
        return StorageError;
      }
      if !ValidPin(pin) {
        return InvalidPin;
      }
      if enabled {
        r := Check(current, hashes, before, after);
        if !r.Good? {
          return;
        }
      }
      var next := Credential(salt, Hash(salt, pin.value));
      if !sealing || !persists {
        return StorageError;
      }
      store := Kept(next);
      saved, failures, cooling, enabled, closed := next, 0, false, true, true;
      return Good;
    }

    method Remove(current: Option<Pin>, hashes: bool, persists: bool, before: uint32, after: uint32) returns (r: Result)
      modifies this
      ensures (View(), store, r) == Removed(old(View()), old(store), current, hashes, persists, before, after)
    {
      r := Check(current, hashes, before, after);
      if !r.Good? {
        return;
      }
      if !persists {
        return StorageError;
      }
      store := Absent;
      saved, enabled, closed := NO_RECORD, false, false;
    }
  }

  // -------------------------------------------------------------------------- runs

  /** True times; the clock shows them modulo 2^32. */
  datatype Action =
    | DoUnlock(pin: Option<Pin>, hashes: bool)
    | DoChange(pin: Option<Pin>, hashes: bool, next: Option<Pin>, salt: nat, sealing: bool, persists: bool)
    | DoRemove(pin: Option<Pin>, hashes: bool, persists: bool)
    | AskRetry
    | DoLock
    | Reboot(readable: bool)

  datatype Event = Event(action: Action, before: nat, after: nat)

  datatype World = World(lock: Lock, store: Store)

  function Apply(w: World, e: Event): (World, Result) {
    var b, a := Wrap(e.before), Wrap(e.after);
    match e.action
    case DoUnlock(pin, hashes) =>
      var (l, r) := Unlocked(w.lock, pin, hashes, b, a); (World(l, w.store), r)
    case DoChange(pin, hashes, next, salt, sealing, persists) =>
      var (l, st, r) := Changed(w.lock, w.store, pin, next, salt, hashes, sealing, persists, b, a); (World(l, st), r)
    case DoRemove(pin, hashes, persists) =>
      var (l, st, r) := Removed(w.lock, w.store, pin, hashes, persists, b, a); (World(l, st), r)
    case AskRetry => (World(Retried(w.lock, b).0, w.store), Good)
    case DoLock => (World(if w.lock.enabled then w.lock.(closed := true) else w.lock, w.store), Good)
    case Reboot(readable) => (World(Boot(w.store, readable), w.store), Good)
  }

  /** The event compares a wrong PIN. */
  predicate Wrong(w: World, e: Event) {
    match e.action
    case DoUnlock(pin, hashes) => Evaluated(w.lock, pin, hashes, Wrap(e.before))
    case DoChange(pin, hashes, next, _, _, _) =>
      w.lock.storageOk && ValidPin(next) && w.lock.enabled && Evaluated(w.lock, pin, hashes, Wrap(e.before))
    case DoRemove(pin, hashes, _) => Evaluated(w.lock, pin, hashes, Wrap(e.before))
    case _ => false
  }

  /** A PIN was right, or a first one was set. */
  predicate Succeeds(w: World, e: Event) {
    (e.action.DoUnlock? || e.action.DoChange? || e.action.DoRemove?) && !Wrong(w, e) &&
    (Apply(w, e).1.Good? || (Apply(w, e).1.StorageError? && w.lock.storageOk))
  }

  ghost predicate IsRun(worlds: seq<World>, events: seq<Event>) {
    && |worlds| == |events| + 1
    && (forall i :: 0 <= i < |events| ==> worlds[i + 1] == Apply(worlds[i], events[i]).0)
    && (forall i :: 0 <= i < |events| ==> events[i].before <= events[i].after)
    && (forall i :: 0 <= i < |events| - 1 ==> events[i].after <= events[i + 1].before)
  }

  function Wrongs(worlds: seq<World>, events: seq<Event>, n: nat): nat
    requires |worlds| == |events| + 1 && n <= |events|
  {
    if n == 0 then 0 else Wrongs(worlds, events, n - 1) + (if Wrong(worlds[n - 1], events[n - 1]) then 1 else 0)
  }

  predicate Counted(l: Lock) { l.failures <= TRIES && (l.cooling <==> l.failures == TRIES) }

  /** Where the count stands after `rounds` pauses, the latest begun at `pause`. */
  ghost predicate Paced(l: Lock, wrongs: nat, start: nat, now: nat, rounds: nat, pause: nat) {
    && Counted(l) && start <= now
    && (if l.cooling then
          && wrongs <= TRIES * rounds
          && (rounds > 0 ==> pause <= now && l.failedAt == Wrap(pause) && pause >= start + COOLDOWN * (rounds - 1))
        else wrongs <= TRIES * rounds + l.failures && now >= start + COOLDOWN * rounds)
  }

  lemma TrueGap(earlier: nat, later: nat)
    requires earlier <= later && Elapsed(Wrap(later), Wrap(earlier)) >= COOLDOWN
    ensures later >= earlier + COOLDOWN
  {
    ElapsedIsTrueTime(earlier, later);
  }

  /** A check keeps the pace: a fifth wrong PIN begins a pause, and nothing is
      compared before the pause is over, also when the clock wraps. */
  lemma CheckKeepsPace(l: Lock, pin: Option<Pin>, hashes: bool, before: nat, after: nat,
                       wrongs: nat, start: nat, rounds: nat, pause: nat)
    returns (r: nat, p: nat)
    requires before <= after && Paced(l, wrongs, start, before, rounds, pause)
    requires !Checked(l, pin, hashes, Wrap(before), Wrap(after)).1.Good?
    ensures Paced(Checked(l, pin, hashes, Wrap(before), Wrap(after)).0,
                  wrongs + (if Evaluated(l, pin, hashes, Wrap(before)) then 1 else 0), start, after, r, p)
  {
    hide ValidPin, Wrap;
    if l.storageOk && l.cooling && Elapsed(Wrap(before), l.failedAt) >= COOLDOWN && rounds > 0 {
      TrueGap(pause, before);
    }
    if Evaluated(l, pin, hashes, Wrap(before)) && Retried(l, Wrap(before)).0.failures + 1 >= TRIES {
      r, p := rounds + 1, after;
    } else {
      r, p := rounds, pause;
    }
  }

  lemma RetryKeepsPace(l: Lock, wrongs: nat, start: nat, before: nat, after: nat, rounds: nat, pause: nat)
    requires before <= after && Paced(l, wrongs, start, before, rounds, pause)
    ensures Paced(Retried(l, Wrap(before)).0, wrongs, start, after, rounds, pause) && Paced(l, wrongs, start, after, rounds, pause)
  {
    hide Wrap;
    if l.cooling && Elapsed(Wrap(before), l.failedAt) >= COOLDOWN && rounds > 0 {
      TrueGap(pause, before);
    }
  }

  lemma EventKeepsPace(w: World, e: Event, wrongs: nat, start: nat, rounds: nat, pause: nat) returns (r: nat, p: nat)
    requires e.before <= e.after && !e.action.Reboot? && !Succeeds(w, e)
    requires Paced(w.lock, wrongs, start, e.before, rounds, pause)
    ensures Paced(Apply(w, e).0.lock, wrongs + (if Wrong(w, e) then 1 else 0), start, e.after, r, p)
  {
    hide Wrap, Paced, Checked, Evaluated, ValidPin, Retried;
    r, p := rounds, pause;
    RetryKeepsPace(w.lock, wrongs, start, e.before, e.after, rounds, pause);
    match e.action
    case DoUnlock(pin, hashes) =>
      WrongIsNotGood(w.lock, pin, hashes, Wrap(e.before), Wrap(e.after));
      r, p := CheckKeepsPace(w.lock, pin, hashes, e.before, e.after, wrongs, start, rounds, pause);
    case DoChange(pin, hashes, next, salt, sealing, persists) =>
      WrongIsNotGood(w.lock, pin, hashes, Wrap(e.before), Wrap(e.after));
      if w.lock.storageOk && ValidPin(next) && w.lock.enabled {
        r, p := CheckKeepsPace(w.lock, pin, hashes, e.before, e.after, wrongs, start, rounds, pause);
      }
    case DoRemove(pin, hashes, persists) =>
      WrongIsNotGood(w.lock, pin, hashes, Wrap(e.before), Wrap(e.after));
      r, p := CheckKeepsPace(w.lock, pin, hashes, e.before, e.after, wrongs, start, rounds, pause);
    case AskRetry =>
    case DoLock => LockKeepsPace(w.lock, wrongs, start, e.after, rounds, pause);
  }

  lemma LockKeepsPace(l: Lock, wrongs: nat, start: nat, now: nat, rounds: nat, pause: nat)
    requires Paced(l, wrongs, start, now, rounds, pause)
    ensures Paced(l.(closed := true), wrongs, start, now, rounds, pause)
  {
  }

  lemma WrongIsNotGood(l: Lock, pin: Option<Pin>, hashes: bool, before: uint32, after: uint32)
    ensures var r := Checked(l, pin, hashes, before, after).1;
            && (Evaluated(l, pin, hashes, before) ==> r == WrongPin || r == Wait)
            && (r.Good? ==> l.storageOk && l.enabled) && (r.StorageError? ==> !l.storageOk)
            && r != InvalidPin
  {
    hide ValidPin;
  }

  lemma {:induction false} RunKeepsPace(worlds: seq<World>, events: seq<Event>, start: nat, n: nat) returns (r: nat, p: nat)
    requires IsRun(worlds, events) && n <= |events| && Counted(worlds[0].lock)
    requires events != [] ==> start <= events[0].before
    requires forall i :: 0 <= i < n ==> !events[i].action.Reboot? && !Succeeds(worlds[i], events[i])
    ensures Paced(worlds[n].lock, Wrongs(worlds, events, n), start, if n == 0 then start else events[n - 1].after, r, p)
    decreases n
  {
    hide Succeeds, Apply, Wrong;
    if n == 0 {
      r, p := 0, start;
    } else {
      r, p := RunKeepsPace(worlds, events, start, n - 1);
      var now := if n == 1 then start else events[n - 2].after;
      RetryKeepsPace(worlds[n - 1].lock, Wrongs(worlds, events, n - 1), start, now, events[n - 1].before, r, p);
      r, p := EventKeepsPace(worlds[n - 1], events[n - 1], Wrongs(worlds, events, n - 1), start, r, p);
    }
  }

  /** In any run without a right PIN and without a reboot that lasts T milliseconds
      at most 5 * (T / 30000 + 1) wrong PINs are compared, whatever is asked in
      between and also when the clock wraps. */
  lemma {:induction false} GuessesAreLimited(worlds: seq<World>, events: seq<Event>, n: nat)
    requires IsRun(worlds, events) && 0 < n <= |events| && Counted(worlds[0].lock)
    requires forall i :: 0 <= i < n ==> !events[i].action.Reboot? && !Succeeds(worlds[i], events[i])
    ensures var t := events[n - 1].after - events[0].before;
            t >= 0 && Wrongs(worlds, events, n) <= TRIES * (t / COOLDOWN + 1)
  {
    hide Succeeds, Apply, Wrong;
    var start := events[0].before;
    TimesGrow(worlds, events, n);
    var r, p := RunKeepsPace(worlds, events, start, n);
    var t := events[n - 1].after - start;
    assert r > 0 ==> t >= COOLDOWN * (r - 1);
    assert !worlds[n].lock.cooling ==> t >= COOLDOWN * r;
  }

  lemma {:induction false} TimesGrow(worlds: seq<World>, events: seq<Event>, n: nat)
    requires IsRun(worlds, events) && 0 < n <= |events|
    ensures events[0].before <= events[n - 1].after
    decreases n
  {
    hide Apply;
    if n > 1 {
      TimesGrow(worlds, events, n - 1);
    }
  }

  /** Every reachable state is one the limit can start from. */
  lemma ApplyKeepsCount(w: World, e: Event)
    requires Counted(w.lock)
    ensures Counted(Apply(w, e).0.lock)
  {
    hide ValidPin, Wrap;
  }

  // ---------------------------------------------------------------- memory and store

  /** The record in memory is the stored one, unless the store could not be read. */
  predicate Agrees(w: World) {
    w.lock.storageOk ==> w.store == if w.lock.enabled then Kept(w.lock.saved) else Absent
  }

  /** Every operation, successful or not, keeps memory and store in agreement, when a
      failed commit leaves the store as it was. */
  lemma ApplyAgrees(w: World, e: Event)
    requires Agrees(w)
    ensures Agrees(Apply(w, e).0)
  {
    hide ValidPin, Wrap, Matches;
  }

  /** A reboot locks the tap if and only if a record is stored or the store cannot
      be read. */
  lemma RebootLocks(w: World, readable: bool)
    ensures Boot(w.store, readable).closed <==> w.store != Absent || !readable
    ensures readable && w.store.Kept? && Agrees(w) && w.lock.storageOk ==> Boot(w.store, readable).saved == w.lock.saved
    ensures Boot(w.store, readable).storageOk <==> readable && w.store != Damaged
    ensures var l := Boot(w.store, readable); l.enabled == l.closed && !l.cooling && l.failures == 0
  {
  }

  /** After a change that succeeded, the first one included, the tap is locked and
      exactly the new PIN opens it, also after a reboot; after one that failed a
      reboot locks as before, and what opened it before does. */
  lemma ChangeTakesEffect(w: World, e: Event, pin: Pin, before: uint32, after: uint32)
    requires Agrees(w) && e.action.DoChange? && ValidPin(Some(pin)) && w.lock.storageOk
    ensures var (n, r) := Apply(w, e); var back := Boot(n.store, true);
            && back.closed == (r.Good? || w.lock.enabled) && Agrees(World(back, n.store))
            && (Unlocked(back, Some(pin), true, before, after).1.Good? <==>
                  if r.Good? then Some(pin) == e.action.next else Matches(w.lock, Some(pin), true))
  {
    hide Wrap;
  }

  /** After a removal that succeeded nothing is locked, also after a reboot. */
  lemma RemoveTakesEffect(w: World, e: Event)
    requires Agrees(w) && e.action.DoRemove?
    ensures var (n, r) := Apply(w, e);
            if r.Good? then n.lock.saved == NO_RECORD && !n.lock.closed && !Boot(n.store, true).closed
            else n.store == w.store && n.lock.saved == w.lock.saved
  {
    hide Wrap, Matches;
  }

  /** A locked tap with a readable store is opened by the right PIN and by nothing
      else: no other request, no failure and no reboot. */
  lemma OnlyThePinOpens(w: World, e: Event)
    requires Agrees(w) && w.lock.storageOk && w.lock.enabled && w.lock.closed
    ensures Apply(w, e).0.lock.closed ||
            ((e.action.DoUnlock? || e.action.DoRemove?) && Matches(w.lock, e.action.pin, e.action.hashes))
  {
    hide ValidPin, Wrap;
  }

  // ---------------------------------------------------- what is asked and what comes of it

  /** A pause is running at clock reading `now`. */
  predicate Pausing(l: Lock, now: uint32) { l.cooling && Elapsed(now, l.failedAt) < 30_000 }

  /** The PIN is the one the store has a record of, and the hash works. */
  predicate IsStored(store: Store, pin: Option<Pin>, hashes: bool) {
    && hashes && pin.Some? && |pin.value| == 4 && (forall i :: 0 <= i < 4 ==> '0' <= pin.value[i] <= '9')
    && store.Kept? && store.record.digest == Hash(store.record.salt, pin.value)
  }

  /** The stored PIN is given, with a readable store and no pause running. */
  predicate Proves(w: World, pin: Option<Pin>, hashes: bool, now: uint32) {
    w.lock.storageOk && !Pausing(w.lock, now) && IsStored(w.store, pin, hashes)
  }

  /** The failures that count when no pause is running: none after one. */
  function Tries(l: Lock): nat { if l.cooling then 0 else l.failures }

  lemma CheckExactly(w: World, pin: Option<Pin>, hashes: bool, before: uint32, after: uint32)
    requires Agrees(w)
    ensures var (c, r) := Checked(w.lock, pin, hashes, before, after);
            && (r == Good <==> Proves(w, pin, hashes, before))
            && (r == StorageError <==> !w.lock.storageOk) && r != InvalidPin
            && c.(failures := w.lock.failures, cooling := w.lock.cooling, failedAt := w.lock.failedAt) == w.lock
            && (r == Good ==> c.failures == 0 && !c.cooling)
            && (w.lock.storageOk && Pausing(w.lock, before) ==> r == Wait && c == w.lock)
            && (w.lock.storageOk && !Pausing(w.lock, before) && r != Good ==>
                  && c.failures == Tries(w.lock) + 1
                  && (if c.failures >= 5 then r == Wait && c.cooling && c.failedAt == after else r == WrongPin && !c.cooling))
  {
  }

  /** Which requests succeed: an unlocking if and only if the stored PIN is given while
      no pause runs, whatever the number of failures before; a change or a removal of a
      PIN if and only if besides that the new PIN is valid and the store works. */
  lemma SucceedsExactlyWhen(w: World, e: Event)
    requires Agrees(w)
    ensures var good, now := Apply(w, e).1 == Good, Wrap(e.before);
            match e.action
            case DoUnlock(pin, hashes) => good <==> Proves(w, pin, hashes, now)
            case DoChange(pin, hashes, next, _, sealing, persists) =>
              good <==> w.lock.storageOk && ValidPin(next) && sealing && persists &&
                        (w.lock.enabled ==> Proves(w, pin, hashes, now))
            case DoRemove(pin, hashes, persists) => good <==> Proves(w, pin, hashes, now) && persists
            case _ => good
    ensures var (n, r) := Apply(w, e);
            r == Good && (e.action.DoUnlock? || e.action.DoChange? || e.action.DoRemove?) ==>
              n.lock.failures == 0 && !n.lock.cooling
  {
    hide Wrap, Checked, Proves, ValidPin;
    if e.action.DoUnlock? || e.action.DoChange? || e.action.DoRemove? {
      CheckExactly(w, e.action.pin, e.action.hashes, Wrap(e.before), Wrap(e.after));
    }
  }

  /** What a change that fails says: the store first, then the new PIN, then the current
      one, counted like any other, and at last the failing of the new record. */
  lemma ChangeSaysWhy(w: World, e: Event)
    requires Agrees(w) && e.action.DoChange?
    ensures var (n, r) := Apply(w, e); var l, a, now := w.lock, e.action, Wrap(e.before);
            && (r == InvalidPin <==> l.storageOk && !ValidPin(a.next))
            && (l.storageOk && ValidPin(a.next) && l.enabled && !Proves(w, a.pin, a.hashes, now) ==>
                  r == (if Pausing(l, now) || Tries(l) + 1 >= 5 then Wait else WrongPin) && n.store == w.store)
            && (r == StorageError <==>
                  !l.storageOk || (ValidPin(a.next) && (l.enabled ==> Proves(w, a.pin, a.hashes, now)) && !(a.sealing && a.persists)))
            && (r == Good ==> n.store == Kept(Credential(a.salt, Hash(a.salt, a.next.value))) && n.lock.saved == n.store.record)
            && (r != Good ==> n.store == w.store && n.lock.saved == l.saved && n.lock.enabled == l.enabled)
  {
    hide Wrap, Checked, Proves, ValidPin, Pausing;
    ProvesInTime(w, e.action.pin, e.action.hashes, Wrap(e.before));
    CheckExactly(w, e.action.pin, e.action.hashes, Wrap(e.before), Wrap(e.after));
  }

  lemma ProvesInTime(w: World, pin: Option<Pin>, hashes: bool, now: uint32)
    ensures Proves(w, pin, hashes, now) ==> w.lock.storageOk && !Pausing(w.lock, now)
  {
  }

  /** The lock itself, exactly: it opens by an unlocking or a removal that succeeds,
      closes by a change that succeeds, by being locked with a PIN set and by a reboot
      with a record or an unreadable store, and nothing else moves it. */
  lemma ClosedExactly(w: World, e: Event)
    requires Agrees(w)
    ensures var (n, r) := Apply(w, e);
            n.lock.closed <==>
              match e.action
              case DoUnlock(_, _) => w.lock.closed && r != Good
              case DoChange(_, _, _, _, _, _) => w.lock.closed || r == Good
              case DoRemove(_, _, _) => w.lock.closed && r != Good
              case AskRetry => w.lock.closed
              case DoLock => w.lock.closed || w.lock.enabled
              case Reboot(readable) => w.store != Absent || !readable
  {
    hide Wrap, Checked, ValidPin;
    if e.action.DoUnlock? || e.action.DoChange? || e.action.DoRemove? {
      CheckExactly(w, e.action.pin, e.action.hashes, Wrap(e.before), Wrap(e.after));
    }
  }

  /** The right PIN opens: a locked tap with a readable store is open after an
      unlocking if and only if the PIN is the stored one, the hash works and no pause
      is running. */
  lemma RightPinOpens(w: World, pin: Option<Pin>, hashes: bool, before: nat, after: nat)
    requires Agrees(w) && w.lock.storageOk && w.lock.closed
    ensures var n := Apply(w, Event(DoUnlock(pin, hashes), before, after)).0;
            && (!n.lock.closed <==> IsStored(w.store, pin, hashes) && !Pausing(w.lock, Wrap(before)))
            && (!n.lock.closed ==> n.lock.failures == 0 && !n.lock.cooling)
  {
    hide Wrap, ValidPin;
    CheckExactly(w, pin, hashes, Wrap(before), Wrap(after));
  }

  /** A pause runs for 30000 ms from the fifth wrong PIN, also when the clock wraps;
      while it runs the seconds to go are those left, rounded up. */
  lemma PauseIsOver(l: Lock, began: nat, now: nat)
    requires l.cooling && l.failedAt == Wrap(began) && began <= now < began + WORD
    ensures Pausing(l, Wrap(now)) <==> now < began + 30_000
    ensures var (n, seconds) := Retried(l, Wrap(now));
            && (seconds == 0 <==> now >= began + 30_000) && (n.cooling <==> seconds > 0)
            && (seconds > 0 ==> 1000 * (seconds - 1) < began + 30_000 - now <= 1000 * seconds)
            && (seconds == 0 ==> n.failures == 0)
  {
    ElapsedIsTrueTime(began, now);
  }

  /** A wrong PIN is counted, from 0 when a pause has just ended; the fifth begins a
      pause and says so. */
  lemma WrongPinCounts(w: World, pin: Option<Pin>, hashes: bool, before: nat, after: nat)
    requires Agrees(w) && Counted(w.lock) && w.lock.storageOk && !Pausing(w.lock, Wrap(before)) && !IsStored(w.store, pin, hashes)
    ensures var (n, r) := Apply(w, Event(DoUnlock(pin, hashes), before, after));
            var so := if w.lock.cooling then 0 else w.lock.failures;
            && n.lock.failures == so + 1 && n.lock.closed == w.lock.closed
            && (if so == 4 then r == Wait && n.lock.cooling && n.lock.failedAt == Wrap(after)
                else r == WrongPin && !n.lock.cooling)
  {
    hide Wrap;
    CheckExactly(w, pin, hashes, Wrap(before), Wrap(after));
  }
}
