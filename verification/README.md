# Verified models of the keg-scale displays and the TouchPour tap

The repository holds the firmware of a battery e-paper scale display, of a Wi-Fi
touchscreen and of an automatic beer tap. This project models its stateful parts in
Dafny and proves what they keep over whole runs.

- **The tap** (`TapTypes`, `PourControl`, `PourRuns`, `ButtonGesture`, `PourRecorder`,
  `TapController`, `ControllerTask`, `TapSafety`, `TapTheorems`, `TapModes`, `TapContact`,
  `TapGuarantees`, `TapPours`). `ControllerTask` is the controller loop as a class that
  changes its fields in place; every method is proved against a function of
  `TapController`, and the whole iteration refines the mode machine of `TapModes`, which
  is defined on the inputs alone. A run is any sequence of iterations and requests. Each
  read of the lock, setup and saving flags in one iteration is an input of its own,
  because other tasks may change them in between; so is the outcome of every PWM write.
  Time is a true number of milliseconds, which the clock shows modulo 2^32.
- **The pour log in flash** (`Crc`, `HistoryRecord`, `PourHistory`, `HistoryRuns`,
  `PourStorage`). Six slots, byte for byte, with a concrete CRC. A save may fail, or the
  power may go, in the erase, the rows, the header or the magic word. A pour is committed
  when its save reports success, or when a boot finds it in flash. `PourStorage` joins
  the tap, the recorder and the log: what a reader is given of a pour is what the sensor
  showed.
- **The e-paper panel** (`Epaper`, `EpaperRefresh`). Framebuffer, retained frame, the
  controller's two planes and the panel. A partial activation drives the bytes in which
  the two planes differ; a full one shows the current plane. Every refresh may break off
  in any step. The panel controller's planes are taken to survive a reset and deep sleep,
  as the code relies on.
- **The BLE fetch** (`BleFetch`, `BleRefinement`, `BleLosses`, `BleExchanges`). The scale is
  its attribute table; each exchange may fail. `Truth` reads the table byte by byte, not
  through the reads of a fetch, and is what every fetch is compared with.
- **The Wi-Fi link** (`LinkTransport`, `LinkSafety`, `LinkProgress`, `LinkAssembly`,
  `LinkSession`, `LinkHex`). Main loop, socket tasks and retirement task as one state
  machine over their atomic steps, taken in any order; reassembly; numbered sealed frames
  over an ideal cipher.
- **Arithmetic and small loops**: the LiDAR timing budget (`RangingBudget`), the touch
  calibration (`TouchCalibration`), the distance filter over real numbers
  (`DistanceFilter`) and the PIN lock (`PinLock`).

`dafny verify dfyconfig.toml` checks everything.

Some promises hold only in part; the model keeps the code as it is, and the exact
condition is proved:

- A servo test whose deadline falls on counter value 0 is not timed
  (`TapGuarantees.TestIsTimedUnlessDeadlineIsZero`).
- A completed save is lost when the 32-bit id counter hands out 0
  (`HistoryRuns.SavedUnlessIdIsZero`); the five-pour guarantee is for runs in which the
  counter does not wrap.
- After an e-paper refresh of a window has failed, success of the next one means that its
  drawing is shown, whatever went wrong, if and only if it goes out as a full refresh or
  differs from the retained frame wherever the failed drawing did
  (`EpaperRefresh.RedrawIsRepairedExactlyWhen`); trying the same drawing again always
  repairs it (`EpaperRefresh.RetryRepairs`). After a full refresh has failed the next one
  must be full, too (`EpaperRefresh.RedrawAfterFailedFullExactlyWhen`).
- A touch threshold that could not be read while the BLE cache was filled is returned as
  0 by every retained fetch until its revision changes; `BleLosses` says exactly when
  that happens (`ThresholdIsRightExactlyWhen`, `LostThresholdIsDeaf`) and that it lasts
  (`LostThresholdSticks`).
- The event argument of a WebSocket carries 31 bits of the generation, so after 2^31
  connection attempts no event is taken any more (`LinkSafety.CurrentClientIsHeard`).
- Fragments without their beginning are dropped unless one starts where the buffer ends
  (`LinkAssembly.HeadlessPiecesDropped`); a mixed frame comes of it exactly under the
  condition of `LinkAssembly.MixedFrameExactlyWhen`.
- A WebSocket message is queued more than once if and only if an empty fragment comes at
  its end (`LinkAssembly.MessageComesThroughOnce`).
- A touch signal of 2^31 or more wraps when it is doubled, and the threshold then falls
  short (`TouchCalibration.CutIsTwoFifths`).
- A stored LiDAR timeout above 65536 macro clocks is cut off
  (`RangingBudget.TimeoutRoundTrip`).

## Model

| member | source | states |
|---|---|---|
| `Clock.ElapsedIsTrueTime` | touchpour/components/tap_control/control.h:60 | an unsigned 32-bit clock difference is the true time between two readings, modulo 2^32, also across a wrap |
| `PourControl.Control.Update` | touchpour/components/tap_control/control.h:59-135 | the class method, fields changed step by step, does what the specification function does on every branch |
| `PourControl.Control.Ready` | touchpour/components/tap_control/control.h:55-58 | ready means that a start at this instant pours, and that the pour is not stopped again at that instant; the state is not changed |
| `PourControl.Control.Start` | touchpour/components/tap_control/control.h:136-146 | a start is accepted exactly when ready, and what it leaves either way |
| `PourControl.Control.Stop` | touchpour/components/tap_control/control.h:50-54 | a stop ends the pour, keeps the message and forgets all readiness |
| `PourControl.Control.ResetReady` | touchpour/components/tap_control/control.h:44-49 | what a reset of the readiness leaves |
| `PourControl.Control.UpdatePour` | touchpour/components/tap_control/control.h:92-110 | the checks on a reading during a pour, in the source's order |
| `PourControl.Control.UpdateReadiness` | touchpour/components/tap_control/control.h:114-134 | how a reading counts towards readiness while idle |
| `PourRuns.IdleBacked` | touchpour/components/tap_control/control.h:111-134 | whatever the readings were, the counter, low, high and last reading of an idle control summarise an unbroken stretch of the newest distinct readings |
| `PourRuns.ReadyNeedsFiveReadings` | touchpour/components/tap_control/control.h:55-135 | ready after any series of looks from a reset state means: at least five new, valid, fresh readings in a row, all above the cutoff raw and smoothed, spread at most stable_mm, gaps at most stale_ms, the newest fresh |
| `PourRuns.SegmentIsCounted` | touchpour/components/tap_control/control.h:111-134 | the counter, band, last reading and time of an idle machine are exactly those of the segment of looks that counts: qualifying, without a gap and within one band, said on the looks alone |
| `PourRuns.ReadyExactlyWhen` | touchpour/components/tap_control/control.h:55-135 | after any looks from a reset machine it is ready if and only if both calibrations are there, five looks count and the newest is fresh |
| `PourRuns.FiveReadingsMakeReady` | touchpour/components/tap_control/control.h:111-134 | so five qualifying, stable and timely readings after a reset do make it ready |
| `PourRuns.PourSurvivesOnlyIfSafe` | touchpour/components/tap_control/control.h:59-110 | a pour that is still running after any series of looks has passed every one on time; its readings lie above the target, in range and within jump_mm of each other; at most one 65535 was ignored, within 250 ms, and recovered before 350 ms |
| `PourRuns.PourSurvivesExactlyWhen` | touchpour/components/tap_control/control.h:59-110 | and nothing else ends a pour: it survives any looks if and only if each is tolerable and in time |
| `PourRuns.EndedLookSaysWhy` | touchpour/components/tap_control/control.h:59-110 | the message of a pour that a look ends, each as an equivalence: the time limits first, then a faulty sample, the cutoff, the range and a jump |
| `ButtonGesture.Button.Update` | touchpour/components/tap_control/button_gesture.h:11-28 | the class method, against the specification function, event and new state |
| `ButtonGesture.Button.CancelUntilRelease` | touchpour/components/tap_control/button_gesture.h:10 | after a cancel the contact is inert: whatever level, time and busy flag the next poll sees, it gives neither a short nor a long press |
| `ButtonGesture.CancelledContactIsInert` | touchpour/components/tap_control/button_gesture.h:10-28 | after a cancel in a press no series of polls gives any gesture until the release is reported, and that release is no short press |
| `ButtonGesture.LongPressFiresOnce` | touchpour/components/tap_control/button_gesture.h:24-26 | once a press has fired as a long press there is no second one before its release, and the release is no short press |
| `ButtonGesture.GesturesAreEarned` | touchpour/components/tap_control/button_gesture.h:11-28 | a short press is the release, and a long press the holding for 2000 ms, of a press accepted while nothing was busy, with no release and no long press in between; for every series of polls from start-up |
| `ButtonGesture.GesturesExactlyWhen` | touchpour/components/tap_control/button_gesture.h:11-28 | for every series of polls from start-up: a short press is reported if and only if a release is and an accepted press is open, a long press if and only if an accepted open press has been down for 2000 ms |
| `ButtonGesture.ReportsExactlyWhen` | touchpour/components/tap_control/button_gesture.h:12-22 | a press or a release is reported if and only if the raw level is not the one last reported and came up at least 30 ms ago |
| `ButtonGesture.BouncesAreIgnored` | touchpour/components/tap_control/button_gesture.h:13-15 | a reported press or release has been the raw level at every poll for the debounce time |
| `PourRecorder.Recorder.AddPoint` | touchpour/components/tap_control/pour_history.cpp:94-101 | a row is appended, or replaces the last one when the buffer of 242 is full; in place |
| `PourRecorder.Recorder.Observe` | touchpour/components/tap_control/pour_history.cpp:122-140 | one observation: begin, sample, close and hand over, or nothing while a save is pending |
| `PourRecorder.DueAreSpaced` | touchpour/components/tap_control/pour_history.cpp:132 | all due rows but the closing one are at least 500 ms of true time apart, so their number is bounded by the length of the pour |
| `PourRecorder.WholePourIsRecorded` | touchpour/components/tap_control/pour_history.cpp:94-140 | from the first to the last observation of a pour: the rows are exactly the opening reading, one whenever 500 ms have passed, and the closing one, with their true times, the readings, and the button flag exactly when it was pressed at some observation since the row before; none is overwritten below 120.5 s, and beyond the first 241 stay and the newest takes the last place; then the buffer is handed over |
| `ControllerTask.Controller.constructor` | touchpour/components/tap_control/app.cpp:273-320 | the state after start-up, from settings stored or default |
| `ControllerTask.Controller.SetServo` | touchpour/components/tap_control/app.cpp:57-74 | a failed PWM write ends both kinds of pour and leaves the servo value |
| `ControllerTask.Controller.Supervise` | touchpour/components/tap_control/app.cpp:131-153 | the immediate hold release, the sensor check and the time limit of a manual fill |
| `ControllerTask.Controller.CloseForUpdate` | touchpour/components/tap_control/app.cpp:154-172 | the branch taken during a firmware update |
| `ControllerTask.Controller.Halt` | touchpour/components/tap_control/app.cpp:173-184 | a stop request, a press or the lock: everything ends |
| `ControllerTask.Controller.Finish` | touchpour/components/tap_control/app.cpp:185-190 | closing after a pour that ended and the servo-test deadline |
| `ControllerTask.Controller.CloseAction` | touchpour/components/tap_control/app.cpp:195-198 | the close action |
| `ControllerTask.Controller.TestAction` | touchpour/components/tap_control/app.cpp:199-204 | the servo test action |
| `ControllerTask.Controller.IsEligible` | touchpour/components/tap_control/app.cpp:207-210 | when a full or half target may be started |
| `ControllerTask.Controller.StartAction` | touchpour/components/tap_control/app.cpp:205-220 | a start towards the full or the half target, or its rejection |
| `ControllerTask.Controller.Accepts` | touchpour/components/tap_control/app.cpp:194-206 | which queued action is carried out under the lock, setup and saving flags |
| `ControllerTask.Controller.Act` | touchpour/components/tap_control/app.cpp:191-222 | queue, short press and action together |
| `ControllerTask.Controller.HoldFill` | touchpour/components/tap_control/app.cpp:223-239 | the long press: a manual fill or its rejection |
| `ControllerTask.Controller.Settle` | touchpour/components/tap_control/app.cpp:240-245 | the servo at rest and the published flags |
| `ControllerTask.Controller.Record` | touchpour/components/tap_control/app.cpp:246-254 | what the history is told |
| `ControllerTask.Controller.Step` | touchpour/components/tap_control/app.cpp:121-272 | one whole iteration of the endless loop, in place, equals the step function of the specification |
| `ControllerTask.Controller.Configure` | touchpour/components/tap_control/network.cpp:325-387 | settings change only while idle, valid and stored |
| `ControllerTask.Controller.BeginUpdate` | touchpour/components/tap_control/network.cpp:481-490 | an update begins only while idle |
| `ControllerTask.Controller.FailUpdate` | touchpour/components/tap_control/network.cpp:493-500 | a failed update leaves a closed tap |
| `TapSafety.PollKeeps` | touchpour/components/tap_control/app.cpp:126 | while a pour or test is under way the contact cannot become a long press: polling keeps the invariant |
| `TapSafety.SuperviseKeeps` | touchpour/components/tap_control/app.cpp:131-153 | this phase keeps the invariant and starts nothing |
| `TapSafety.HaltKeeps` | touchpour/components/tap_control/app.cpp:173-184 | so does a stop, which ends idle with the queue empty |
| `TapSafety.FinishKeeps` | touchpour/components/tap_control/app.cpp:185-190 | so do the deadlines |
| `TapSafety.RunKeeps` | touchpour/components/tap_control/app.cpp:194-220 | each action keeps the invariant; what it started was allowed to start |
| `TapSafety.HoldKeeps` | touchpour/components/tap_control/app.cpp:223-239 | so does the long press |
| `TapSafety.SettleKeeps` | touchpour/components/tap_control/app.cpp:240-245 | after it the servo stands as the mode says |
| `TapTheorems.IterationSettles` | touchpour/components/tap_control/app.cpp:121-255 | what one whole iteration changes: the control, the servo, the flags and what was started |
| `TapModes.IterationFollowsModes` | touchpour/components/tap_control/app.cpp:121-246 | refinement: in every reachable state the iteration, with its phases, two pour machines, queue and servo writes, takes exactly the step of a machine with four modes (idle, automatic pour, manual hold, test) that is defined on the inputs: what starts, with which target and web flag, what goes on and what ends |
| `TapModes.StartPoursToItsMark` | touchpour/components/tap_control/app.cpp:205-220 | an accepted start pours to the half mark for START_HALF and to the full one for START, and it does start if and only if nothing was under way, the machine is ready, the cup is below that mark and the servo opens |
| `TapModes.AcceptedExactly` | touchpour/components/tap_control/app.cpp:191-206 | which action an iteration carries out: a short press, or the oldest request, if lock, setup, saving and what goes on allow it |
| `TapModes.QueueAdvances` | touchpour/components/tap_control/app.cpp:191-193 | an iteration takes one request off the queue, a stop all of them |
| `TapModes.ReadingsAreKept` | touchpour/components/tap_control/app.cpp:137-143 | with nothing carried out, or a start rejected, the pour machine is exactly where this look takes it |
| `TapModes.EndedPourSaysWhy` | touchpour/components/tap_control/app.cpp:131-190 | the message of a pour that an iteration ends: the lock or the emergency stop first, then the release or the limit of a hold, else the machine's own reason |
| `TapModes.ActionSaysWhat` | touchpour/components/tap_control/app.cpp:194-220 | the message of an action that is carried out: closed, test, pouring to the full or the half mark, or which start was rejected |
| `TapModes.PublishesCutoff` | touchpour/components/tap_control/app.cpp:243-245 | the published cutoff is that of the automatic pour that runs, else the full mark |
| `TapContact.ContactIsCancelledExactlyWhen` | touchpour/components/tap_control/app.cpp:126-239 | the button contact, exactly: it is polled, and cancelled until its release for a stop, the lock, a hold that ends, an update, an action that is carried out and a rejected long press, and for nothing else; and every sample is looked at once |
| `TapTheorems.RunIsSafe` | touchpour/components/tap_control/app.cpp:121-272 | the invariant holds in every state of every run from boot, for any sensor, button, queue, lock, setup, network and writer behaviour |
| `TapGuarantees.OneThingAtATime` | touchpour/components/tap_control/app.cpp:121-246 | automatic pour, manual hold and servo test exclude each other in every reachable state; during a pour the servo is open, also when PWM writes fail; nothing runs during an update |
| `TapGuarantees.ServoFollowsMode` | touchpour/components/tap_control/app.cpp:185-246 | after every iteration the pulse is open in a pour, the test pulse in a test, closed otherwise if the write works |
| `TapGuarantees.StopWins` | touchpour/components/tap_control/app.cpp:175-184 | an iteration that consumes a stop ends idle, closed, with an empty queue and a cancelled contact |
| `TapGuarantees.UpdateStaysClosed` | touchpour/components/tap_control/app.cpp:154-172 | every iteration during an update ends idle, and closed if the write works |
| `TapGuarantees.LockLeavesOnlyWebOperations` | touchpour/components/tap_control/app.cpp:173-224 | an iteration with the lock held throughout ends with no operation but one flagged as web |
| `TapGuarantees.WebFlagIsHonest` | touchpour/components/tap_control/app.cpp:202-242 | the web flag is never stale: when set, an earlier iteration carried out a web action that started an operation, and one has been under way without a break since |
| `TapGuarantees.RecordingFollowsPour` | touchpour/components/tap_control/pour_history.cpp:122-140 | recording is on after an iteration exactly when a pour is active; a pour is handed over exactly by the iteration that ends it; the buffer is untouched while a save is pending |
| `TapGuarantees.RequestsLeavePoursAlone` | touchpour/components/tap_control/network.cpp:325-387 | requests between iterations neither start nor end a pour, change no settings during one, and touch the recorder only to clear the saving flag |
| `TapGuarantees.SettingsAreTakenExactlyWhen` | touchpour/components/tap_control/network.cpp:325-387 | new settings are taken if and only if nothing is under way, no save and no update is going on, they are within the limits and could be stored; what changes then, and nothing otherwise |
| `TapGuarantees.UpdateBeginsExactlyWhen` | touchpour/components/tap_control/network.cpp:481-500 | when a firmware update begins, and what one that fails leaves |
| `TapGuarantees.SettingsStayWithinLimits` | touchpour/components/tap_control/control.h:15-25 | the settings in use are within the limits in every reachable state |
| `TapGuarantees.StartsClosed` | touchpour/components/tap_control/app.cpp:273-320 | after start-up nothing is under way, waiting or recorded, and a calibrated servo is closed if the write works |
| `TapGuarantees.FewActionsWait` | touchpour/components/tap_control/app.cpp:191-193 | at most four actions wait in every reachable state |
| `TapGuarantees.WaitingActions` | touchpour/components/tap_control/network.cpp:388-440 | an action waits unless four do; a stop request stops whatever iteration comes next |
| `TapGuarantees.TestIsTimedUnlessDeadlineIsZero` | touchpour/components/tap_control/app.cpp:199-204 | a servo test is timed if and only if its deadline is not the counter value 0 that means none; in that millisecond a calibrated servo is closed in the same iteration |
| `TapPours.EveryPourIsEarned` | touchpour/components/tap_control/app.cpp:205-219 | in every run an automatic pour starts only after five qualifying readings since the last reset; so a pour never restarts without five new ones, across clock wrap |
| `TapPours.EveryPourStaysSafe` | touchpour/components/tap_control/app.cpp:138 | while an automatic pour goes on, in any run, everything `PourSurvivesOnlyIfSafe` says holds of the readings since its start, against the target it was started with |
| `TapPours.NoPourOutlivesItsLimit` | touchpour/components/tap_control/app.cpp:147-148 | with iterations at most d ms apart no pour, automatic or manual, lasts max_pour_ms + d |
| `TapPours.HistoryIsTold` | touchpour/components/tap_control/app.cpp:246-254 | what the history is told, field by field: the sample of this iteration, the servo and modes after it, whether the button reported anything, the settings of the pour that runs or has just ended, and the message |
| `TapPours.EveryPourIsHandedOverWhole` | touchpour/components/tap_control/pour_history.cpp:94-140 | with iterations prompt enough for the buffer every pour, automatic or manual, reaches the writer with opening, due and closing rows, every field and the button flag as above, none overwritten |
| `Crc.FeedByte` | touchpour/components/tap_control/pour_history.cpp:33-34 | the inner bit loop |
| `Crc.Compute` | touchpour/components/tap_control/pour_history.cpp:30-37 | the byte loop computes the CRC of the whole data |
| `Crc.RunJoins` | touchpour/components/tap_control/pour_history.cpp:30-37 | the accumulator of joined data is the accumulator continued |
| `Crc.CrcJoins` | touchpour/components/tap_control/pour_history.cpp:49-56 | folding blocks one after the other equals one pass over the whole payload |
| `Crc.FeedIsTableStep` | touchpour/components/tap_control/pour_history.cpp:33-34 | one byte is one step of the common implementation by table |
| `Crc.EntryOf` | touchpour/components/tap_control/pour_history.cpp:33-34 | the entries of that table, with the polynomial 0xEDB88320 |
| `Crc.ChangedByteIsSeen` | touchpour/components/tap_control/pour_history.cpp:30-37 | equal checksums of data that differ at one place mean that the byte there is the same: a changed byte is always seen |
| `HistoryRecord.HeaderRoundTrip` | touchpour/components/tap_control/pour_history.cpp:16-19 | decoding the 212 header bytes gives back the header that was encoded |
| `HistoryRecord.HeaderLayout` | touchpour/components/tap_control/pour_history.cpp:16-19 | where each word of the header is in its 212 bytes, little-endian |
| `HistoryRecord.CheckSlot` | touchpour/components/tap_control/pour_history.cpp:38-61 | header check and block loop of 512 bytes accept a slot if and only if it holds a stored record, and return that record's header |
| `HistoryRecord.StoredExactlyWhen` | touchpour/components/tap_control/pour_history.cpp:38-61 | a slot holds a pour if and only if, in its bytes, the magic word, the format, the row count and its copy, the id and both checksums are right |
| `PourHistory.Log.LoadSlots` | touchpour/components/tap_control/pour_history.cpp:45-62 | the boot scan, in place; a slot that cannot be read counts as empty |
| `PourHistory.Log.FindSlot` | touchpour/components/tap_control/pour_history.cpp:69-71 | the first slot with the smallest id |
| `PourHistory.Log.WriteStage` | touchpour/components/tap_control/pour_history.cpp:81-85 | one partition write, whole or torn |
| `PourHistory.Log.Save` | touchpour/components/tap_control/pour_history.cpp:65-89 | one turn of the writer, for every way it can end |
| `PourHistory.Log.HistoryList` | touchpour/components/tap_control/pour_history.cpp:141-149 | the list shown to the user |
| `PourHistory.Log.HistoryPoint` | touchpour/components/tap_control/pour_history.cpp:155-166 | one row of one pour: of the first slot with that id and enough rows, nothing if there is none or it cannot be read |
| `HistoryRuns.TornSlot` | touchpour/components/tap_control/pour_history.cpp:78-85 | a slot torn at any stage is no pour, except when the magic word got through whole, and then it is the whole pour |
| `HistoryRuns.FinishedSlot` | touchpour/components/tap_control/pour_history.cpp:72-86 | a finished slot reads back as the saved pour, byte for byte, unless its id is 0 |
| `HistoryRuns.SaveKeeps` | touchpour/components/tap_control/pour_history.cpp:65-89 | a save that the firmware survives, successful or not, keeps the invariant |
| `HistoryRuns.CutKeeps` | touchpour/components/tap_control/pour_history.cpp:78-86 | so does a power cut in erase, rows, header or magic word |
| `HistoryRuns.BootKeeps` | touchpour/components/tap_control/pour_history.cpp:45-62 | a boot rebuilds the headers from flash and loses nothing |
| `HistoryRuns.RunIsSafe` | touchpour/components/tap_control/pour_history.cpp:45-92 | the invariant holds after every run of saves, failures, cuts and reboots |
| `HistoryRuns.NewestFiveSurvive` | touchpour/components/tap_control/pour_history.cpp:45-92 | in every such run each of the five newest committed pours, by a save or adopted at a boot, is in flash, header and rows byte for byte what one save event of the run was to write |
| `HistoryRuns.CommitsInOrder` | touchpour/components/tap_control/pour_history.cpp:45-92 | in every run each event, adoption at a boot included, commits at most one pour, under an id greater than every one before; what is logged is a record that a save event of the run was to write, and stays |
| `HistoryRuns.SuccessIsCommitted` | touchpour/components/tap_control/pour_history.cpp:72-86 | a save that reports success commits exactly its rows and its summary, under an id greater than every committed one |
| `HistoryRuns.SavedUnlessIdIsZero` | touchpour/components/tap_control/pour_history.cpp:42-59 | a completed save is found by the next boot if and only if its id is not 0; the save after the counter wraps never is |
| `HistoryRuns.NextIdIsNext` | touchpour/components/tap_control/pour_history.cpp:59 | after a boot the next id is one more than the greatest in flash, 1 without any |
| `HistoryRuns.ListShowsNewestFive` | touchpour/components/tap_control/pour_history.cpp:141-149 | the list shows exactly the five newest committed pours, newest first |
| `PourStorage.RowRoundTrip` | touchpour/components/tap_control/pour_history.h:8-13 | the 24 bytes of a row give back the row, signs and flags too |
| `PourStorage.RowLayout` | touchpour/components/tap_control/pour_history.h:8-13 | where each field of a row is in its 24 bytes, signs in two's complement |
| `PourStorage.NewestFiveCanBeRead` | touchpour/components/tap_control/pour_history.cpp:155-166 | every row of each of the five newest committed pours can be read by its number, as it was saved, and no others |
| `PourStorage.SavedRowsReadBack` | touchpour/components/tap_control/pour_history.cpp:65-166 | once a save has reported success, through any later saves, failures, cuts and reboots, the rows read back are the recorded ones while the pour is among the five newest |
| `PourStorage.EveryPourCanBeReadBack` | touchpour/components/tap_control/pour_history.cpp:94-166 | from sensor to reader: for every pour of every run whose save reports success, row i can be read exactly when an i-th row was due, and shows the reading, the true time and the button at that moment |
| `Epaper.Display.Clear` | components/epaper/epaper.c:624-630 | the whole framebuffer white or black |
| `Epaper.Display.SetPixel` | components/epaper/epaper.c:632-674 | exactly one pixel of the rotated picture changes, none when off screen; the invisible padding bits stay |
| `Epaper.Display.FillRect` | components/epaper/epaper.c:676-695 | exactly the pixels of the rectangle that are on screen change; the padding bits stay |
| `Epaper.FrameIsItsPicture` | components/epaper/epaper.c:639-660 | two frames are equal if and only if all their visible pixels and their padding are |
| `Epaper.PixelIsBit` | components/epaper/epaper.c:646-674 | pixel (x, y) is bit 7 - y % 8 of byte y / 8 of native row 249 - x, and a cleared bit is black |
| `Epaper.Display.CopyRows` | components/epaper/epaper.c:65-91 | the row loops copy exactly the bytes of a window |
| `Epaper.FirstRows` | components/epaper/epaper.c:65-91 | which bytes of a window a transfer has reached after so many rows |
| `Epaper.Display.FindChangedArea` | components/epaper/epaper.c:93-154 | no area exactly when the frames are equal or none is retained; else the rectangle of the bounds of the differing bytes |
| `Epaper.Display.Refresh` | components/epaper/epaper.c:906-981 | a full refresh, for every step it can break off in |
| `Epaper.Display.RefreshPartial` | components/epaper/epaper.c:983-1173 | a partial refresh, argument check, window and both planes, for every step it can break off in |
| `Epaper.Display.RefreshChanged` | components/epaper/epaper.c:1175-1250 | which of nothing, a full or a partial refresh is done, and the counter |
| `EpaperRefresh.ChangedAreaIsSmallest` | components/epaper/epaper.c:107-147 | the area is a window of the panel exactly when the frames differ, holds every differing byte and lies in every window that does |
| `EpaperRefresh.AreaRoundTrip` | components/epaper/epaper.c:149-152 | the logical rectangle maps back to the same native window and is rejected only when the window touches byte column 15, the case diverted to a full refresh |
| `EpaperRefresh.RectangleIsItsPixels` | components/epaper/epaper.c:1073-1100 | the window of an accepted rectangle holds the bytes of exactly the pixels inside it |
| `EpaperRefresh.ChangedShowsTheDrawing` | components/epaper/epaper.c:1175-1250 | a changed refresh never fails on its arguments, and when it reports success panel, retained frame and framebuffer are equal |
| `EpaperRefresh.WindowExactlyWhen` | components/epaper/epaper.c:1195-1231 | only a window is sent if and only if a frame is retained, something has changed, the interval is not used up, and no byte of the last column has changed |
| `EpaperRefresh.RetainedIsShown` | components/epaper/epaper.c:46-91 | over every run of drawing, wakes, power losses and refreshes without a failure, a valid retained frame is what the panel shows |
| `EpaperRefresh.FullRefreshIsRegular` | components/epaper/epaper.c:1205-1219 | among any n panel-refreshing changed-area calls with interval n at least one full refresh took place |
| `EpaperRefresh.CounterIsWindowsSince` | components/epaper/epaper.c:46-91 | in every run, failures included, a frame is retained exactly when there was a full refresh since the last loss of power, and the counter is the number of windows sent by changed-area calls since the last full refresh |
| `EpaperRefresh.WindowInRunExactlyWhen` | components/epaper/epaper.c:1195-1231 | so in a run only a window is sent if and only if fewer than interval - 1 have been sent since the last full refresh, something has changed and no byte of the last column |
| `EpaperRefresh.SuccessRetainsTheDrawing` | components/epaper/epaper.c:1175-1250 | a changed refresh that reports success has retained the drawing, whatever had gone wrong before |
| `EpaperRefresh.RetryRepairs` | components/epaper/epaper.c:1175-1250 | after any number of failed attempts, each in any step, the first successful attempt with the same drawing leaves panel, retained frame and framebuffer equal |
| `EpaperRefresh.RedrawIsRepairedExactlyWhen` | components/epaper/epaper.c:1175-1250 | after an attempt that was to send a window, for every way it and the next attempt can go: success of the next one means its drawing is shown, if and only if that one is a full refresh or its drawing differs from the retained frame in every byte in which the failed one did |
| `EpaperRefresh.RedrawAfterFailureIsMissed` | components/epaper/epaper.c:1195-1204 | the witness: a failed refresh followed by drawing the old picture again reports success and the panel shows something else |
| `EpaperRefresh.WindowAfterFailedFullExactlyWhen` | components/epaper/epaper.c:906-981 | after a full refresh that broke off in any step, a next drawing sent as a window is shown if and only if every byte comes right, byte by byte in terms of the broken step |
| `EpaperRefresh.RedrawAfterFailedFullExactlyWhen` | components/epaper/epaper.c:906-981 | so, whatever goes wrong in a full refresh, success of the next drawing means that it is shown if and only if that one goes out as a full refresh, too |
| `BleFetch.Client.FetchMode` | components/ble_client/ble_client.c:1496-1935 | the loop behind the jump to rediscovery, the cache changed in place, equals the two-round specification |
| `BleFetch.Client.SaveThreshold` | components/ble_client/ble_client.c:2186-2278 | when a threshold is stored on the scale; from then on no peer finds a retained cache, and a failed attempt changes neither scale nor cache |
| `BleFetch.OnlyCachedAsksAgain` | components/ble_client/ble_client.c:1597-1605 | only a round on retained handles asks for rediscovery, so there are never more than two rounds |
| `BleRefinement.WritesOnlyToTheKnownScale` | components/ble_client/ble_client.c:1550-1605 | in every trace, whatever fails: at most one discovery; first of all on maintenance or a cache miss; and every write comes after an identity text, read through the same handles, that fits the peer and, on retained handles, the retained identity |
| `BleRefinement.ReportsBeforeCommands` | components/ble_client/ble_client.c:1750-1810 | in every round, rediscovered or not, with an acknowledging scale a command is read only after this display's report was written in the same round; otherwise the round fails and returns no command |
| `BleRefinement.FetchReportsBeforeCommands` | components/ble_client/ble_client.c:1496-1875 | so does every whole fetch that succeeds, over any links |
| `BleRefinement.OneScaleFits` | components/ble_client/ble_client.c:2305-2328 | an identity text fits one scale only and says protocol 1 |
| `BleRefinement.TextEndsAtZero` | components/ble_client/ble_client.c:1563-1605 | a text ends at the first zero of its characteristic |
| `BleExchanges.FullFetchFailsWith` | components/ble_client/ble_client.c:1496-1875 | over any link a full fetch fails exactly with its first fault in the order of its exchanges, and losing the display settings, the threshold or the offer is none |
| `BleExchanges.ClearRoundSends` | components/ble_client/ble_client.c:1531-1875 | what a round that succeeds has sent: each characteristic once, in order; a retained one makes no discovery and reads name and threshold only if their revisions have moved on |
| `BleRefinement.FullRound` | components/ble_client/ble_client.c:1563-1875 | a full round succeeds exactly when the scale answers, and returns what its attribute table says byte by byte, whatever an abandoned round left behind |
| `BleRefinement.RetainedRound` | components/ble_client/ble_client.c:1608-1700 | a round on handles that are still right tells the truth if and only if retained name and threshold are right or their revisions have moved on |
| `BleRefinement.FetchTellsTheTruth` | components/ble_client/ble_client.c:1531-1934 | over a clear link any fetch succeeds exactly when a full fetch would, returns the same apart from the update offer, and leaves the same cache |
| `BleRefinement.EveryFetchTellsTheTruth` | components/ble_client/ble_client.c:1496-1935 | so does every fetch of every run over changing scales and peers, when a scale fetched twice in a row changes handles only with its identity, name and threshold only with their revisions |
| `BleLosses.FetchIsTrueOrSilent` | components/ble_client/ble_client.c:1496-1935 | over any links, a fetch that succeeds tells the truth, except that display settings may be the defaults and threshold or offer missing; one that fails drops the cache |
| `BleLosses.EveryFetchIsTrueOrSilent` | components/ble_client/ble_client.c:1496-1935 | so does every fetch of every run over changing scales, peers and links |
| `BleLosses.ThresholdIsRightExactlyWhen` | components/ble_client/ble_client.c:1664-1700 | after a full fetch over any link the next retained fetch over a clear one tells the whole truth if and only if the threshold got through, or the scale has none, or its display settings cannot be read, or they were lost while their revision is not 0 |
| `BleLosses.LostThresholdIsDeaf` | components/ble_client/ble_client.c:1664-1700 | exactly which full fetches leave a cache that has lost the threshold |
| `BleLosses.LostThresholdSticks` | components/ble_client/ble_client.c:1664-1700 | such a cache returns 0 in any number of later retained fetches, whatever the scale's threshold is, until its revision changes |
| `BleLosses.ThresholdLostExample` | components/ble_client/ble_client.c:1664-1700 | a concrete scale that loses its threshold that way |
| `BleLosses.SavedThresholdIsRead` | components/ble_client/ble_client.c:2186-2278 | a threshold saved on the scale is what the next fetch returns and retains |
| `LinkTransport.TokenKeepsThirtyOneBits` | touchscreen/main/connection_transport.cpp:90-98 | the event argument gives back slot and generation if and only if the generation is below 2^31 |
| `LinkSafety.Connections.RetireAsync` | touchscreen/main/connection_transport.cpp:67-87 | queued with the flag set, or refused with the flag clear |
| `LinkSafety.Connections.StopTransport` | touchscreen/main/main.cpp:203-226 | what a stop leaves, and that it is a path of the state machine's steps |
| `LinkSafety.Connections.ConnectScale` | touchscreen/main/main.cpp:294-418 | what a connect leaves: nothing while a retirement is pending, the old client queued, or a new client; a path of the steps |
| `LinkSafety.StepKeepsPlaces` | touchscreen/main/main.cpp:203-226 | every step of every task leaves a slot's client in one place, with the flag saying whether it is being retired |
| `LinkSafety.StepKeepsAccounts` | touchscreen/main/connection_transport.cpp:21-41 | every step leaves each live client in the hands of exactly one task |
| `LinkSafety.StepKeepsDates` | touchscreen/main/connection_transport.cpp:89-105 | every step leaves only the slot's own client in the current generation |
| `LinkSafety.QueueNeverFills` | touchscreen/main/connection_transport.cpp:77-86 | the retirement queue holds at most two handles, so the branch that puts one back is never needed |
| `LinkSafety.RunIsSound` | touchscreen/main/main.cpp:203-418 | all of it in every state of every interleaving |
| `LinkSafety.OneClientPerSlotNoneLost` | touchscreen/main/main.cpp:294-418 | in every interleaving a slot has at most one created and not destroyed client, each is in someone's hands, and the queue has room whenever one is handed over |
| `LinkSafety.FramesAreCurrent` | touchscreen/main/main.cpp:420-431 | a frame that passes the generation check came from the client the slot has now; for fewer than 2^31 attempts |
| `LinkSafety.CurrentClientIsHeard` | touchscreen/main/connection_transport.cpp:90-105 | the current client's events are taken if and only if its generation is below 2^31 |
| `LinkSafety.OneWriterPerSlot` | touchscreen/main/connection_transport.cpp:143-174 | no two events of one slot overlap, so its reassembly buffer has one writer |
| `LinkSafety.LossIsReportedOnce` | touchscreen/main/connection_transport.cpp:118-143 | reports of a lost connection carry strictly increasing generations: one per connection |
| `LinkProgress.EventIsDelivered` | touchscreen/main/connection_transport.cpp:89-174 | an event of the present client is queued once, behind the others, if and only if there is something to tell and room; of any other client nothing happens; a loss is told once per attempt |
| `LinkProgress.EventHoldsItsClient` | touchscreen/main/connection_transport.cpp:89-105 | while an event is handled no second one of its client begins |
| `LinkProgress.FramesAreAQueue` | touchscreen/main/connection_transport.cpp:63-65 | only the main loop takes a frame, the oldest, and nothing else loses or reorders any |
| `LinkProgress.TurnFreesTheSlot` | touchscreen/main/connection_transport.cpp:21-41 | one turn of the retirement task destroys the client that has waited longest and frees its slot for the next connection; nothing else changes |
| `LinkProgress.StopSilences` | touchscreen/main/main.cpp:203-226 | after a stop no client of the slot is heard, no queued frame of it is taken, and its client waits to be destroyed |
| `LinkProgress.ConnectIsHeard` | touchscreen/main/main.cpp:294-418 | a connect in a free slot makes the given client the one that is heard, and no other |
| `LinkProgress.Reconnects` | touchscreen/main/main.cpp:294-418 | a connection is replaced: a connect retires the old client, one turn destroys it, the next connect makes the new one |
| `LinkAssembly.Assembler.OnData` | touchscreen/main/connection_transport.cpp:144-174 | one fragment, in place: buffer and offered frame |
| `LinkAssembly.Assembler.Clear` | touchscreen/main/connection_transport.cpp:143 | a lost connection empties the buffer |
| `LinkAssembly.FramesQueued` | touchscreen/main/connection_transport.cpp:144-174 | however a message of at most 2072 bytes is cut, into empty pieces too, with control frames in between and anything in the buffer before: one frame is queued for each piece that ends where the message ends, and each is the message |
| `LinkAssembly.MessageComesThroughOnce` | touchscreen/main/connection_transport.cpp:144-174 | a message that is not empty comes through exactly once if and only if no empty piece comes at its end |
| `LinkAssembly.NeverOverflows` | touchscreen/main/connection_transport.cpp:154-164 | the buffer never exceeds a frame |
| `LinkAssembly.GapDropsTheRest` | touchscreen/main/connection_transport.cpp:148-164 | after a gap in the middle nothing changes or is queued until a message starts |
| `LinkAssembly.HeadlessPiecesDropped` | touchscreen/main/connection_transport.cpp:148-173 | pieces of a message whose beginning was missed are all dropped if and only if none starts where the buffer ends |
| `LinkAssembly.MixedFrameExactlyWhen` | touchscreen/main/connection_transport.cpp:144-174 | later pieces of a message are queued behind an old beginning, as one mixed frame, if and only if one of them starts where the buffer ends and from there they follow without a gap to the end |
| `LinkSession.NumberRoundTrip` | touchscreen/components/controller_link/controller_link.c:174-177 | the four header bytes give back the number |
| `LinkSession.OpensWhatWasSealed` | touchscreen/components/controller_link/controller_link.c:148-198 | the other side opens a sealed frame if and only if it has not yet opened that number or a later one |
| `LinkSession.FreshSessionsTalk` | touchscreen/components/controller_link/controller_link.c:106-121 | two sides started with one key: the first text of either carries number 1 and is opened, and no number of the other side is refused at first |
| `LinkSession.AcceptedInOrder` | touchscreen/components/controller_link/controller_link.c:183-198 | under any loss, repetition, reordering and forgery the accepted plaintexts are an in-order, duplicate-free subsequence of those sealed |
| `LinkSession.AllArrive` | touchscreen/components/controller_link/controller_link.c:148-198 | frames delivered in order and without loss are all accepted |
| `LinkSession.NumbersHaveNoGaps` | touchscreen/main/connection_session.cpp:38-65 | whatever fails in between, the frames the transport takes are the reported messages sealed one after the other, numbered without a gap |
| `LinkSession.AcceptedWereReported` | touchscreen/main/connection_session.cpp:38-65 | end to end the receiver accepts an in-order subsequence of the messages whose send reported success |
| `LinkSession.Connection.SealStaged` | touchscreen/components/controller_link/controller_link.c:148-182 | a frame and its staged number, or a refusal exactly for a text that is too long, the last number or an encryption that fails |
| `LinkSession.Connection.Open` | touchscreen/components/controller_link/controller_link.c:183-198 | what is accepted and what changes, on every refusal too |
| `LinkSession.Connection.SendSecure` | touchscreen/main/connection_session.cpp:38-65 | the number is committed only when the transport took the whole frame; an incomplete send schedules a reconnect |
| `LinkSession.Connection.Start` | touchscreen/components/controller_link/controller_link.c:106-121 | a new session starts both counters at 0; without the hashes no traffic is ready |
| `LinkHex.ToHex` | touchscreen/components/controller_link/controller_link.c:4-11 | the loop writes the text of the bytes and the final zero |
| `LinkHex.FromHex` | touchscreen/components/controller_link/controller_link.c:21-31 | true exactly for hexadecimal text of twice the length; then the bytes are those whose text it is, in either case |
| `LinkHex.ReadsBack` | touchscreen/components/controller_link/controller_link.c:4-31 | reading a written text back gives the bytes and nothing else does |
| `RangingBudget.EncodeTimeout` | touchpour/components/vl53l0x/VL53L0X.cpp:978-1000 | the halving loop and the 16-bit result |
| `RangingBudget.TimeoutRoundTrip` | touchpour/components/vl53l0x/VL53L0X.cpp:969-1000 | decoding a stored timeout t >= 1 gives at most t and loses at most (t-1)/128 if and only if t <= 65536; encoding what was decoded gives the same word |
| `RangingBudget.DecodedIsExact` | touchpour/components/vl53l0x/VL53L0X.cpp:969-974 | every register value decodes to a timeout that is stored without loss |
| `RangingBudget.RegisterFormat` | touchpour/components/vl53l0x/VL53L0X.cpp:969-974 | the stored word is a mantissa byte shifted by the high byte, less one |
| `RangingBudget.PeriodIsNearest` | touchpour/components/vl53l0x/VL53L0X.cpp:1002-1016 | the macro period is 2304 pulse periods of 1.655 ns each, to the nearest nanosecond |
| `RangingBudget.FinalClocks` | touchpour/components/vl53l0x/VL53L0X.cpp:957-960 | the final range runs for the stored clocks less the pre-range ones |
| `RangingBudget.ClockRounding` | touchpour/components/vl53l0x/VL53L0X.cpp:1011-1016 | the conversion to macro clocks is off by at most half a period |
| `RangingBudget.MicrosecondRounding` | touchpour/components/vl53l0x/VL53L0X.cpp:1002-1007 | the conversion to microseconds is off by at most half a microsecond |
| `RangingBudget.NoUnderflow` | touchpour/components/vl53l0x/VL53L0X.cpp:957-960 | the final-range timeout stored on top of the pre-range one never reads back below it |
| `RangingBudget.UsedFits` | touchpour/components/vl53l0x/VL53L0X.cpp:428-462 | the sums of overheads and timeouts stay far below 2^32 |
| `RangingBudget.RefusedExactlyWhen` | touchpour/components/vl53l0x/VL53L0X.cpp:461-480 | a request is refused exactly when the final range is enabled and the rest of the budget is more than was asked for; then nothing is stored |
| `RangingBudget.BudgetIsSumOfSteps` | touchpour/components/vl53l0x/VL53L0X.cpp:511-556 | the budget is the time of all enabled steps, DSS twice and MSRC only without it, each with its overhead, and the overhead of the whole, to half a microsecond for each run of a step |
| `RangingBudget.BudgetReadsBack` | touchpour/components/vl53l0x/VL53L0X.cpp:426-556 | the budget read back exceeds a successful request by at most half a macro period and half a microsecond, and falls short by no more than that and the encoding loss |
| `RangingBudget.Sensor.SetMeasurementTimingBudget` | touchpour/components/vl53l0x/VL53L0X.cpp:426-506 | when a request is refused and what is stored |
| `RangingBudget.Sensor.GetMeasurementTimingBudget` | touchpour/components/vl53l0x/VL53L0X.cpp:511-556 | the sum that is read back and kept |
| `TouchCalibration.InsertLast` | components/touch_wake/touch_wake.c:234-244 | one round of the insertion sort, in place: sorted one further, a permutation |
| `TouchCalibration.SortInPlace` | components/touch_wake/touch_wake.c:234-244 | the sort: sorted and a permutation |
| `TouchCalibration.TrimmedMean` | components/touch_wake/touch_wake.c:228-265 | sorted in place, minimum, maximum and the mean of the middle |
| `TouchCalibration.MeanIsInside` | components/touch_wake/touch_wake.c:254-264 | the mean lies between the samples at the cuts, so between minimum and maximum |
| `TouchCalibration.MeanIgnoresOutliers` | components/touch_wake/touch_wake.c:254-264 | as many outliers as an eighth cannot move the mean out of the range of the other samples |
| `TouchCalibration.Choose` | components/touch_wake/touch_wake.c:630-680 | which signals are refused, and a percentage of 1 to 40 for the others |
| `TouchCalibration.PercentBounds` | components/touch_wake/touch_wake.c:655-661 | the percentage before clamping is at most 40, so the upper clamp never acts |
| `TouchCalibration.CutIsTwoFifths` | components/touch_wake/touch_wake.c:655-663 | the threshold asks for two fifths of the signal, rounded up to a percent: not below it if and only if doubling the signal does not wrap, and above it by less than a percent |
| `TouchCalibration.ThresholdSeparates` | components/touch_wake/touch_wake.c:663-680 | the wake threshold is strictly below the baseline and at least the touched mean minus 1; below the touched mean if and only if the percentage is 1, the signal is the least accepted and a hundredth of the baseline is no whole number |
| `DistanceFilter.Filter.Update` | touchpour/components/tap_control/distance_filter.h:13-27 | one reading: the fields stand for the readings since the last reset, and the output is the filter's function of them |
| `DistanceFilter.Filter.Take` | touchpour/components/tap_control/distance_filter.h:16-25 | the ring, the median and the smoothing, in place |
| `DistanceFilter.OutputInHull` | touchpour/components/tap_control/distance_filter.h:22-26 | the output stays within the range of the readings since the last reset |
| `DistanceFilter.OutliersAreIgnored` | touchpour/components/tap_control/distance_filter.h:22-26 | outliers do not move it out of the range of the good readings when the first two are good and of any three in a row at most one is an outlier |
| `DistanceFilter.ConvergesTo` | touchpour/components/tap_control/distance_filter.h:24-26 | after k equal readings it is within 0.6^(k-1) of the range's width of them |
| `DistanceFilter.StepResponse` | touchpour/components/tap_control/distance_filter.h:24-26 | the step response, exactly: a jump is held back for one reading, and then 0.6 of the way left remains each time |
| `DistanceFilter.FirstReadings` | touchpour/components/tap_control/distance_filter.h:24-26 | the first reading is the output, the second counts a fifth |
| `DistanceFilter.MiddleIsMedian` | touchpour/components/tap_control/distance_filter.h:20-25 | the middle value has at most one reading below and one above it |
| `DistanceFilter.HeldSinceReset` | touchpour/components/tap_control/distance_filter.h:13-16 | the filter holds the readings since the last invalid one or gap, and nothing else is a reset |
| `PinLock.PinLock.constructor` | touchpour/components/tap_control/pin_lock.cpp:41-54 | the state after a boot, for every state of the store |
| `PinLock.PinLock.RetrySeconds` | touchpour/components/tap_control/pin_lock.cpp:58-63 | the seconds left of a pause, and its end |
| `PinLock.PinLock.Check` | touchpour/components/tap_control/pin_lock.cpp:64-75 | what a check answers and how it counts |
| `PinLock.PinLock.Unlock` | touchpour/components/tap_control/pin_lock.cpp:76-78 | the tap opens exactly on a right PIN |
| `PinLock.PinLock.Change` | touchpour/components/tap_control/pin_lock.cpp:79-87 | memory and store after a change, for every way it can fail |
| `PinLock.PinLock.Remove` | touchpour/components/tap_control/pin_lock.cpp:88-92 | memory and store after a removal, for every way it can fail |
| `PinLock.GuessesAreLimited` | touchpour/components/tap_control/pin_lock.cpp:58-75 | in any run without a right PIN or a reboot that lasts T ms at most 5 * (T / 30000 + 1) wrong PINs are compared, also when the clock wraps |
| `PinLock.ApplyKeepsCount` | touchpour/components/tap_control/pin_lock.cpp:64-75 | every reachable state is one that limit can start from |
| `PinLock.ApplyAgrees` | touchpour/components/tap_control/pin_lock.cpp:76-92 | after every operation, successful or not, the record in memory is the stored one |
| `PinLock.OnlyThePinOpens` | touchpour/components/tap_control/pin_lock.cpp:64-92 | a locked tap with a readable store is opened by the right PIN and by nothing else |
| `PinLock.RightPinOpens` | touchpour/components/tap_control/pin_lock.cpp:64-78 | a locked tap with a readable store is open after an unlocking if and only if the PIN is the stored one, the hash works and no pause is running, whatever the number of failures before |
| `PinLock.SucceedsExactlyWhen` | touchpour/components/tap_control/pin_lock.cpp:64-92 | which unlockings, changes and removals succeed, as an equivalence on the store, the PINs, the clock and the hardware |
| `PinLock.ChangeSaysWhy` | touchpour/components/tap_control/pin_lock.cpp:79-87 | what a change that fails says and leaves, and the record that one that succeeds stores |
| `PinLock.ClosedExactly` | touchpour/components/tap_control/pin_lock.cpp:41-92 | what opens and closes the lock, for every request |
| `PinLock.PauseIsOver` | touchpour/components/tap_control/pin_lock.cpp:58-63 | a pause lasts 30000 ms from the fifth wrong PIN, also when the clock wraps, and the seconds told are those left, rounded up |
| `PinLock.WrongPinCounts` | touchpour/components/tap_control/pin_lock.cpp:64-75 | a wrong PIN is counted, from 0 after a pause; the fifth begins one |
| `PinLock.RebootLocks` | touchpour/components/tap_control/pin_lock.cpp:41-54 | a reboot locks if and only if a record is stored or the store cannot be read |
| `PinLock.ChangeTakesEffect` | touchpour/components/tap_control/pin_lock.cpp:79-87 | after a reboot exactly the new PIN opens the tap if the change, or the setting of the first PIN, succeeded, and what opened it before if not |
| `PinLock.RemoveTakesEffect` | touchpour/components/tap_control/pin_lock.cpp:88-92 | after a removal nothing is locked, also after a reboot; a failed one changes no record |

## Left out

- All rendering and user interface code, fonts, sounds and their cues, and the foam recording.
- ESP-IDF and FreeRTOS: queues, mutexes, NVS, partitions, SPI, PWM and BLE appear only as outcomes that may fail.
- `Settings` and `Sample`: the smoothed distance is the rounded integer that the code compares.
- The sensor task's own loop; any sequence of samples may arrive.
- Logging and message texts; a reason is an enumeration, and messages that are only shown are one value each.
- `ControllerTask.Controller.Step`: queueing an action, requesting a stop and the writer's flag are single assignments and only part of the specification's events, not methods.
- `PourStorage.SavedRowsReadBack`: the settings, firmware name, reason and hold flag of a summary are 180 bytes that come back unchanged, not fields; reads by `history_point` succeed.
- `PourHistory.Log.Save`: an erase that is cut leaves an image that is not a pour or still the old one; that a torn erase forges another valid record is excluded, as by an ideal checksum. A failed erase leaves the slot as it was.
- `HistoryRuns.RunIsSafe`: flash reads at boot succeed; what a boot does with a slot that it cannot read is stated by `PourHistory.Log.LoadSlots` only.
- `HistoryRuns.NewestFiveSurvive`: for runs in which the id counter does not reach 2^32 - 1, because the id after it is 0 and such a pour is not found again.
- `Epaper.Display.RefreshPartial`: the waveform table, the controller's configuration commands and delays are one step each; which of the errors a failed step returns is not told apart.
- Text, fonts and shapes drawn on the e-paper beyond pixels and rectangles.
- `BleFetch.Client.FetchMode`: the fields of the 20 snapshot bytes are not scaled to units, and the radio signal and other advertisement data of the peer are not part of it. A description of the running firmware always exists.
- BLE scanning, pairing, update bundles and command acknowledgement.
- `BleRefinement.EveryFetchTellsTheTruth`: for links that lose nothing; `BleLosses.EveryFetchIsTrueOrSilent` is the statement for all links.
- `LinkSafety.OneClientPerSlotNoneLost`: connections are managed by the main task only; the connect of the automatic discovery is taken to run there.
- `LinkTransport`: retry times, host and pairing checks before a connect are one choice whether a client is created; a full frame queue drops a frame, as in the code.
- `LinkSession.NumbersHaveNoGaps`: a failed send delivers nothing. Keys are ideal; the key agreement and the handshake are not modelled.
- `RangingBudget.DecodedIsExact`: a shift of 32 or more, which the source leaves undefined, gives no bits.
- The rest of the LiDAR driver: register tables, initialisation, single measurements.
- `TouchCalibration.Choose`: sampling, waiting for touch and release, and the verification taps.
- `DistanceFilter.Filter.Update`: over real numbers, not 32-bit floats.
- `PinLock.PinLock.Check`: the hash is ideal and may fail to compute; a failed commit leaves the store as it was.
- Over-the-air updates, power policy, setup discovery, the pairing overlay and the other small machines of the displays.
