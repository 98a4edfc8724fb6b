/** Sampling of a pour into the row buffer that the history writer saves
    (`add_point` and `history_observe` of pour_history.cpp). */
module PourRecorder {
  import opened Clock
  import opened TapTypes

  const MAX_POINTS: nat := 242
  const ROW_INTERVAL_MS: uint32 := 500

  datatype Row = Row(
    elapsed: uint32, sequence: uint32, age: uint32, mm: int32, status: int16, servo: int16,
    valid: bool, hold: bool, button: bool)

  /** The conversion to `int16_t`. */
  function Int16(n: int): int16 { (n + 0x8000) % 0x1_0000 - 0x8000 }

  datatype Summary = Summary(settings: Settings, manualHold: bool, duration: uint32, reason: Reason)

  /** The arguments of one `history_observe` call. */
  datatype Observation = Observation(
    s: Sample, c: Settings, now: uint32, servo: int, pouring: bool, hold: bool, button: bool, reason: Reason)

  function AddRow(rows: seq<Row>, row: Row): seq<Row> {
    if |rows| < MAX_POINTS then rows + [row] else rows[..MAX_POINTS - 1] + [row]
  }

  datatype RecorderState = RecorderState(
    available: bool, recording: bool, saving: bool, pendingButton: bool,
    started: uint32, lastAt: uint32, summary: Summary, rows: seq<Row>)
  {
    function RowOf(o: Observation): Row {
      Row(Elapsed(o.now, started), o.s.sequence, Elapsed(o.now, o.s.at), o.s.mm, Int16(o.s.status), Int16(o.servo),
          o.s.valid, o.hold, pendingButton)
    }

    function AddPoint(o: Observation): RecorderState {
      this.(rows := AddRow(rows, RowOf(o)), pendingButton := false, lastAt := o.now)
    }

    function Observe(o: Observation): RecorderState {
      if !available || saving then this
      else if o.pouring && !recording then
        this.(summary := Summary(o.c, o.hold, 0, Boot), rows := [], started := o.now, lastAt := o.now,
              pendingButton := o.button, recording := true).AddPoint(o)
      else if recording then
        var r := this.(pendingButton := pendingButton || o.button);
        var sampled := if !o.pouring || Elapsed(o.now, lastAt) >= ROW_INTERVAL_MS then r.AddPoint(o) else r;
        if o.pouring then sampled
        else sampled.(summary := sampled.summary.(duration := Elapsed(o.now, started), reason := o.reason),
                      recording := false, saving := true)
      else this
    }
  }

  class Recorder {
    var available: bool
    var recording: bool
    var saving: bool
    var pendingButton: bool
    var started: uint32
    var lastAt: uint32
    var summary: Summary
    const points: array<Row>
    var count: nat

    ghost predicate Valid()
      reads this
    {
      points.Length == MAX_POINTS && count <= MAX_POINTS
    }

    ghost function State(): RecorderState
      reads this, points
      requires Valid()
    {
      RecorderState(available, recording, saving, pendingButton, started, lastAt, summary, points[..count])
    }

    constructor (available: bool, c: Settings)
      ensures Valid() && fresh(points)
      ensures State() == RecorderState(available, false, false, false, 0, 0, Summary(c, false, 0, Boot), [])
    {
      this.available := available;
      recording, saving, pendingButton := false, false, false;
      started, lastAt, count := 0, 0, 0;
      summary := Summary(c, false, 0, Boot);
      points := new Row[MAX_POINTS](_ => Row(0, 0, 0, 0, 0, 0, false, false, false));
    }

    method AddPoint(o: Observation)
      requires Valid()
      modifies this, points
      ensures Valid() && State() == old(State()).AddPoint(o)
    {
      var row := Row(Elapsed(o.now, started), o.s.sequence, Elapsed(o.now, o.s.at), o.s.mm, Int16(o.s.status),
                     Int16(o.servo), o.s.valid, o.hold, pendingButton);
      if count < MAX_POINTS {
        points[count] := row;
        count := count + 1;
      } else {
        points[MAX_POINTS - 1] := row;
      }
      pendingButton := false;
      lastAt := o.now;
    }

    method Observe(o: Observation)
      requires Valid()
      modifies this, points
      ensures Valid() && State() == old(State()).Observe(o)
    {
      if !available || saving {
        return;
      }
      if o.pouring && !recording {
        summary := Summary(o.c, o.hold, 0, Boot);
        count := 0;
        started, lastAt := o.now, o.now;
        pendingButton := o.button;
        recording := true;
        AddPoint(o);
      } else if recording {
        pendingButton := pendingButton || o.button;
        if !o.pouring || Elapsed(o.now, lastAt) >= ROW_INTERVAL_MS {
          AddPoint(o);
        }
        if !o.pouring {
          summary := summary.(duration := Elapsed(o.now, started), reason := o.reason);
          recording := false;
          saving := true;
        }
      }
    }

    /** What the writer task does to this object when a save has ended. */
    method SavingDone()
      modifies this`saving
      ensures Valid() == old(Valid())
      ensures !saving
    {
      saving := false;
    }
  }

  // -------------------------------------------------- a whole pour, on true time

  /** An observation at true time `t`; its clock reading is `t` wrapped. */
  datatype Moment = Moment(t: nat, o: Observation)

  function After(r: RecorderState, ms: seq<Moment>): RecorderState {
    if ms == [] then r else After(r, ms[..|ms| - 1]).Observe(ms[|ms| - 1].o)
  }

  /** One pour as it is observed: it is under way from the first moment on and
      over at most at the last one. */
  ghost predicate OnePour(ms: seq<Moment>) {
    && ms != []
    && (forall i :: 0 <= i < |ms| ==> ms[i].o.now == Wrap(ms[i].t))
    && (forall i, j :: 0 <= i <= j < |ms| ==> ms[i].t <= ms[j].t)
    && (forall i :: 0 <= i < |ms| - 1 ==> ms[i].o.pouring)
    && ms[0].o.pouring
  }

  /** The moments at which a row is due, by index: the first, then every moment
      at least 500 ms of true time after the row before it, and the end of the pour. */
  function Due(ms: seq<Moment>): (due: seq<nat>)
    ensures forall i :: 0 <= i < |due| ==> due[i] < |ms|
    ensures due == [] <==> ms == []
  {
    if ms == [] then [] else MoreDue(Due(ms[..|ms| - 1]), ms)
  }

  /** With the rows `due` before the last moment, is one due at it, too? */
  function MoreDue(due: seq<nat>, ms: seq<Moment>): (more: seq<nat>)
    requires ms != [] && forall i :: 0 <= i < |due| ==> due[i] < |ms| - 1
    ensures more != [] && forall i :: 0 <= i < |more| ==> more[i] < |ms|
  {
    var last := ms[|ms| - 1];
    if due == [] || !last.o.pouring || last.t - ms[due[|due| - 1]].t >= 500 then due + [|ms| - 1] else due
  }

  /** The last moment at which a row was due. */
  function LastDue(ms: seq<Moment>): (i: nat)
    requires ms != []
    ensures i < |ms|
  {
    Due(ms)[|Due(ms)| - 1]
  }

  lemma DueFirst(m: Moment)
    ensures Due([m]) == [0]
  {
    assert [m][..0] == [];
  }

  lemma DueNext(ms: seq<Moment>, m: Moment)
    requires ms != []
    ensures Due(ms + [m]) == if !m.o.pouring || m.t - ms[LastDue(ms)].t >= 500 then Due(ms) + [|ms|] else Due(ms)
  {
    hide MoreDue;
    var all, due := ms + [m], Due(ms);
    assert all[..|all| - 1] == ms;
    MoreDueNext(due, ms, m);
  }

  lemma MoreDueNext(due: seq<nat>, ms: seq<Moment>, m: Moment)
    requires due != [] && forall i :: 0 <= i < |due| ==> due[i] < |ms|
    ensures MoreDue(due, ms + [m]) == if !m.o.pouring || m.t - ms[due[|due| - 1]].t >= 500 then due + [|ms|] else due
  {
  }

  lemma OnePourPrefix(ms: seq<Moment>)
    requires OnePour(ms) && |ms| > 1
    ensures OnePour(ms[..|ms| - 1]) && ms[|ms| - 2].o.pouring && ms[|ms| - 2].t <= ms[|ms| - 1].t
  {
  }

  lemma {:induction false} DueAreSpaced(ms: seq<Moment>)
    requires OnePour(ms)
    ensures ms[0].t + 500 * (|Due(ms)| - if ms[|ms| - 1].o.pouring then 1 else 2) <=
            (if ms[|ms| - 1].o.pouring then ms[LastDue(ms)].t else ms[|ms| - 2].t)
    ensures Due(ms)[0] == 0 && (!ms[|ms| - 1].o.pouring ==> LastDue(ms) == |ms| - 1)
    decreases |ms|
  {
    hide Due;
    var init, last := ms[..|ms| - 1], ms[|ms| - 1];
    assert ms == init + [last];
    if init == [] {
      DueFirst(last);
    } else {
      OnePourPrefix(ms);
      DueAreSpaced(init);
      DueNext(init, last);
    }
  }

  /** Was the button pressed between two moments, the first included? */
  predicate Pressed(ms: seq<Moment>, from: nat, to: nat)
    requires to <= |ms|
  {
    exists j :: from <= j < to && ms[j].o.button
  }

  /** What a row says: the reading of moment `at`, its time since the start, and
      whether the button was pressed at any moment from `since` on. */
  ghost predicate Shows(row: Row, ms: seq<Moment>, since: nat, at: nat)
    requires at < |ms|
  {
    var m := ms[at];
    && row.elapsed == m.t - ms[0].t
    && row.sequence == m.o.s.sequence
    && row.age == Elapsed(m.o.now, m.o.s.at)
    && row.mm == m.o.s.mm
    && row.status == Int16(m.o.s.status)
    && row.servo == Int16(m.o.servo)
    && row.valid == m.o.s.valid
    && row.hold == m.o.hold
    && (row.button <==> Pressed(ms, since, at + 1))
  }

  /** The moment after row `i - 1`, from which on row `i` reports the button. */
  function Since(due: seq<nat>, i: nat): nat
    requires i <= |due|
  {
    if i == 0 then 0 else due[i - 1] + 1
  }

  /** Which of `n` due rows is in place `j` of the buffer: when they do not all fit,
      the last place has the newest one. */
  function Placed(j: nat, n: nat): nat {
    if j == MAX_POINTS - 1 && n > 0 then n - 1 else j
  }

  /** The rows of a pour show the moments they were due at. */
  ghost predicate RowsShow(rows: seq<Row>, ms: seq<Moment>) {
    var due := Due(ms);
    && |rows| == (if |due| < MAX_POINTS then |due| else MAX_POINTS)
    && forall j :: 0 <= j < |rows| ==> RowShows(rows[j], ms, due, Placed(j, |due|))
  }

  /** The row shows the moment of the `i`-th due row. */
  ghost predicate RowShows(row: Row, ms: seq<Moment>, due: seq<nat>, i: nat) {
    i < |due| && due[i] < |ms| && Shows(row, ms, Since(due, i), due[i])
  }

  /** A recorder in the middle of a pour. */
  ghost predicate Following(r: RecorderState, ms: seq<Moment>)
    requires ms != []
  {
    && r.available && r.recording && !r.saving
    && RowsShow(r.rows, ms)
    && r.started == ms[0].o.now && r.lastAt == ms[LastDue(ms)].o.now
    && (r.pendingButton <==> Pressed(ms, LastDue(ms) + 1, |ms|))
    && r.summary.settings == ms[0].o.c && r.summary.manualHold == ms[0].o.hold
  }

  /** The finished record of a pour. */
  ghost predicate HandedOver(r: RecorderState, ms: seq<Moment>)
    requires ms != []
  {
    var first, last := ms[0], ms[|ms| - 1];
    && !r.recording && r.saving
    && RowsShow(r.rows, ms)
    && r.summary == Summary(first.o.c, first.o.hold, Wrap(last.t - first.t), last.o.reason)
  }

  lemma PressedStays(ms: seq<Moment>, m: Moment, since: nat, to: nat)
    requires to <= |ms|
    ensures Pressed(ms + [m], since, to) <==> Pressed(ms, since, to)
    ensures Pressed(ms + [m], since, |ms| + 1) <==> Pressed(ms, since, |ms|) || (since <= |ms| && m.o.button)
  {
    var all := ms + [m];
    assert forall j :: 0 <= j < |ms| ==> all[j] == ms[j];
    assert all[|ms|] == m;
  }

  /** A later moment changes nothing about an earlier row. */
  lemma RowStays(row: Row, ms: seq<Moment>, m: Moment, due: seq<nat>, i: nat)
    requires RowShows(row, ms, due, i)
    ensures RowShows(row, ms + [m], due, i) && RowShows(row, ms + [m], due + [|ms|], i)
  {
    hide Pressed, Int16, Since;
    PressedStays(ms, m, Since(due, i), due[i] + 1);
    SameSince(due, |ms|, i);
  }

  /** The rows after one more moment, if the recorder adds one exactly when it is due. */
  lemma RowsGrow(rows: seq<Row>, ms: seq<Moment>, m: Moment, row: Row)
    requires RowsShow(rows, ms) && ms != [] && Shows(row, ms + [m], LastDue(ms) + 1, |ms|)
    ensures RowsShow(if !m.o.pouring || m.t - ms[LastDue(ms)].t >= 500 then AddRow(rows, row) else rows, ms + [m])
  {
    hide Shows, Pressed, Due, Since, RowShows;
    DueNext(ms, m);
    var before, due := Due(ms), Due(ms + [m]);
    var next := if due == before then rows else AddRow(rows, row);
    forall j | 0 <= j < |next|
      ensures RowShows(next[j], ms + [m], due, Placed(j, |due|))
    {
      if Placed(j, |due|) < |before| {
        assert next[j] == rows[j] && Placed(j, |due|) == Placed(j, |before|);
        RowStays(rows[j], ms, m, before, Placed(j, |before|));
      } else {
        LastRowShows(row, ms, m, before);
      }
    }
  }

  lemma LastRowShows(row: Row, ms: seq<Moment>, m: Moment, before: seq<nat>)
    requires before != [] && Shows(row, ms + [m], before[|before| - 1] + 1, |ms|)
    ensures RowShows(row, ms + [m], before + [|ms|], |before|)
  {
    hide Shows;
    SameSince(before, |ms|, |before|);
  }

  lemma SameSince(due: seq<nat>, last: nat, i: nat)
    requires i <= |due|
    ensures Since(due + [last], i) == Since(due, i)
    ensures due != [] ==> Since(due, |due|) == due[|due| - 1] + 1
  {
  }

  /** The row taken at a later moment of a pour. */
  lemma NewRow(r: RecorderState, ms: seq<Moment>, m: Moment)
    requires ms != [] && Following(r, ms) && ms[0].t <= m.t < ms[0].t + WORD
    requires m.o.now == Wrap(m.t) && ms[0].o.now == Wrap(ms[0].t)
    ensures Shows(r.(pendingButton := r.pendingButton || m.o.button).RowOf(m.o), ms + [m], LastDue(ms) + 1, |ms|)
  {
    hide RowsShow, Pressed, LastDue, Int16;
    ElapsedIsTrueTime(ms[0].t, m.t);
    PressedStays(ms, m, LastDue(ms) + 1, |ms|);
  }

  lemma NextMoment(r: RecorderState, ms: seq<Moment>, m: Moment)
    requires ms != [] && Following(r, ms)
    requires ms[0].t <= ms[LastDue(ms)].t <= m.t < ms[0].t + WORD
    requires m.o.now == Wrap(m.t) && ms[0].o.now == Wrap(ms[0].t) && ms[LastDue(ms)].o.now == Wrap(ms[LastDue(ms)].t)
    ensures if m.o.pouring then Following(r.Observe(m.o), ms + [m]) else HandedOver(r.Observe(m.o), ms + [m])
  {
    hide Shows, Pressed, Due, RowsShow, Int16, AddRow;
    var last := LastDue(ms);
    ElapsedIsTrueTime(ms[0].t, m.t);
    ElapsedIsTrueTime(ms[last].t, m.t);
    NewRow(r, ms, m);
    RowsGrow(r.rows, ms, m, r.(pendingButton := r.pendingButton || m.o.button).RowOf(m.o));
    DueNext(ms, m);
    PressedStays(ms, m, last + 1, |ms|);
    NothingPressed(ms + [m]);
  }

  lemma NothingPressed(ms: seq<Moment>)
    ensures !Pressed(ms, |ms|, |ms|)
  {
  }

  lemma FirstMoment(r: RecorderState, m: Moment)
    requires r.available && !r.recording && !r.saving && m.o.pouring && m.o.now == Wrap(m.t)
    ensures Following(r.Observe(m.o), [m])
  {
    var ms := [m];
    DueFirst(m);
    assert ms[0].o.button ==> Pressed(ms, 0, 1);
    NothingPressed(ms);
  }

  /** Over a whole pour the buffer holds exactly the rows that were due, from the
      opening reading to the closing one, each with its true time since the start and
      with any press of the button since the row before it; the clock may wrap. When
      the pour is seen to last less than 120.5 s none is overwritten; of a longer one
      the first 241 stay and the newest takes the last place. The pour is handed to
      the writer when it ends, not before. */
  lemma {:induction false} WholePourIsRecorded(r: RecorderState, ms: seq<Moment>)
    requires OnePour(ms) && r.available && !r.recording && !r.saving
    requires ms[|ms| - 1].t - ms[0].t < WORD
    ensures (forall i :: 0 <= i < |ms| && ms[i].o.pouring ==> ms[i].t - ms[0].t < 120_500) ==> |Due(ms)| <= MAX_POINTS
    ensures if ms[|ms| - 1].o.pouring then Following(After(r, ms), ms) else HandedOver(After(r, ms), ms)
    decreases |ms|
  {
    hide RecorderState.Observe, Following, HandedOver;
    DueAreSpaced(ms);
    var init, last := ms[..|ms| - 1], ms[|ms| - 1];
    assert ms == init + [last];
    if init == [] {
      FirstMoment(r, last);
    } else {
      OnePourPrefix(ms);
      WholePourIsRecorded(r, init);
      NextMoment(After(r, init), init, last);
    }
  }
}
