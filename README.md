# Crop-guard intrusion alarm: detection confirmation, ROI gate, alarm and history

This project models the decision logic of a browser-based intrusion alarm for
farmland. Each frame, an object classifier reports predictions. The model
covers what happens next:

- **Tracker** (`useDetection.js`): keeps predictions of an elephant or a bear
  that are confident enough, and times each class from the first frame of its
  current unbroken run. A class is `confirmed` once it has been seen for longer
  than one second.
- **Region of interest, or ROI** (`MonitoringPage.jsx`): the gate admits a
  confirmed detection when the centre of its box is in the operator's
  rectangle. Drag and resize gestures keep that rectangle inside the frame.
- **Alarm** (`MonitoringPage.jsx`): the alarm goes from idle to active once.
  On that edge it plays the siren, vibrates the device, and sends at most one
  email per minute. It saves every qualifying detection to the history, and
  only the operator can switch it off.
- **History log** (`storage.js`): a newest-first list of at most 50 records.
  A save is skipped if the newest record has the same label and is less than
  10 s old.

Modules, one per component:

- `Geometry`: the percentage rectangle shared by boxes and the ROI.
- `Tracking`: filter, tracker update and result list; the `DetectionHook` class
  holds the label-to-first-seen map and the published detections. Its
  `DetectFrame` method updates the map with the source's two loops and is proved
  against the function `Tracked`. `Replay`/`RunStart` describe whole runs of
  frames; each `Frame` carries the threshold in force when it was processed, so
  the run lemmas also cover a threshold slider moved mid-session.
- `Roi`: the gate, the ROI invariant, and the clamped drag/resize arithmetic.
- `Alarm`: the alarm logic as a reducer over `AlarmState` (alarm flag, last email
  time, Test Siren toggle). Each operation returns the new state and the list of
  effect `Command`s `SaveDetection`, `PlaySiren`, `Vibrate`, `SendEmail`,
  `StopSiren`, in the order the page performs them. Sessions are sequences of
  `Event`s.
- `Monitoring`: the `MonitoringPage` class whose fields the page's handlers
  update in place. Each handler is proved to match the corresponding `Alarm` or
  `Roi` function, and every handler keeps the ROI valid (`Valid()` in and out).
- `History`: the `HistoryStore` class over one storage slot (missing, a parsed
  list, or unparsable text), with `Prepend` and `Debounced` as its specification.
- `Scenarios`: end-to-end examples through tracker, gate and alarm.

Modelling choices:

- The clock, the classifier output, the storage write outcome and the formatted
  date are parameters.
- Times are integers (milliseconds); scores and geometry are reals.
- The source's id `label + firstSeen` is the pair `DetectionId(cls, firstSeen)`.
- The detection field `label` (a Dafny keyword) is named `name`.

Points where a reader might expect other behaviour; the model follows the code:

- The email throttle is strict (`now - lastEmailTime > 60000`); one might
  expect `>=`.
- There is no "never sent" state: `lastEmailTime` starts at 0, so the first
  email waits until the clock is past 60000 ms.
- The full-frame bypass tests only `width == 100 && height == 100`, not `x` and
  `y`. `Roi.BypassIsFullFrame` proves the two agree for every valid ROI.
- A suppressed history save returns nothing rather than `false`.
- A first-seen time of 0 reads as untracked. So an elephant first seen at clock
  0 is still verifying at 1001 ms (`Scenarios.ZeroClockRestartsDwell`), where
  one might expect it to be confirmed.

## Model

| member | source | states |
|---|---|---|
| Tracking.Survives | src/hooks/useDetection.js:37-39 | the per-prediction test: score at least the threshold and lower-cased class elephant or bear |
| Tracking.Surviving | src/hooks/useDetection.js:36-39 | a prediction is kept iff its score is at least the threshold and its lower-cased class is elephant or bear; no more than the input |
| Tracking.SurvivingAppend | src/hooks/useDetection.js:37-39 | the filter preserves order: filtering a concatenation is the concatenation of the filtered parts |
| Tracking.Capitalize | src/hooks/useDetection.js:71 | same length, first character upper-cased, the rest unchanged |
| Tracking.CapitalizeKeepsClass | src/hooks/useDetection.js:38 | lower-casing a capitalised label gives the same as lower-casing the class |
| Tracking.Tracked | src/hooks/useDetection.js:47-60 | the tracked labels are exactly this cycle's labels; each time is either the clock now or the earlier non-zero first-seen time |
| Tracking.TrackedKeysAreSurvivors | src/hooks/useDetection.js:47-60 | after a cycle a label is tracked iff some prediction of that class passed the filter |
| Tracking.PresenceKeepsFirstSeen | src/hooks/useDetection.js:48-50 | a tracked label (non-zero time) seen again keeps its first-seen time |
| Tracking.AbsenceRestartsClock | src/hooks/useDetection.js:56-59 | a label missing for one cycle is dropped; on reappearance its first-seen time is the new clock and its dwell is 0 |
| Tracking.TrackedStaysPositive | src/hooks/useDetection.js:48-49 | with a positive clock every tracked time stays positive, so the truthiness test never misfires |
| Tracking.DwellNeverDecreases | src/hooks/useDetection.js:48-50 | present in consecutive cycles with a non-decreasing clock: first-seen kept, dwell not smaller |
| Tracking.ToDetection | src/hooks/useDetection.js:63-74 | id is the class with the given first-seen time, dwell is `now - firstSeen`, confirmed iff the dwell exceeds 1000, label is the capitalised class; score and box carried over |
| Tracking.Results | src/hooks/useDetection.js:63-82 | one result per surviving prediction |
| Tracking.TrackedCoversLabels | src/hooks/useDetection.js:47-51 | every surviving class has an entry after the update, so every result has a first-seen time |
| Tracking.CycleDetections | src/hooks/useDetection.js:36-84 | the published list has one entry per surviving prediction |
| Tracking.ResultsDescribePredictions | src/hooks/useDetection.js:63-74 | result i keeps prediction i's score and box, has the capitalised label and dwell `now - firstSeen`, and is confirmed iff that dwell exceeds 1000 (strict) |
| Tracking.SameClassSharesId | src/hooks/useDetection.js:64-70 | predictions of one class share id, dwell and status |
| Tracking.ReportedLabelsAreAllowed | src/hooks/useDetection.js:38 | every reported label, lower-cased, is an allowed class |
| Tracking.DetectionHook.DetectFrame | src/hooks/useDetection.js:31-88 | not ready: tracker and detections untouched; ready: tracker becomes `Tracked` of the surviving labels and detections the cycle's results |
| Tracking.DetectionHook.StopDetection | src/hooks/useDetection.js:96-98 | the published list becomes empty; the first-seen map is kept |
| Tracking.DetectionHook.constructor | src/hooks/useDetection.js:11-15 | empty tracker, no detections |
| Tracking.Replay | src/hooks/useDetection.js:47-60 | after a run of frames the tracked labels are exactly those present in the last frame; none before any frame; each frame is filtered with its own threshold |
| Tracking.RunStart | src/hooks/useDetection.js:56-59 | the start of the label's unbroken run ending at the last frame: present from there on, absent just before |
| Tracking.ReplayPositive | src/hooks/useDetection.js:48-49 | over a run of frames with positive clock, every tracked time is positive |
| Tracking.FirstSeenIsRunStart | src/hooks/useDetection.js:47-60 | over any run of frames, a label present at the end is recorded with the clock of the first frame of its current run |
| Tracking.ReplayNotPresent | src/hooks/useDetection.js:56-59 | a label absent from the last frame is not tracked |
| Tracking.ConfirmedIffDwelledLongEnough | src/hooks/useDetection.js:65-73 | confirmed at the last frame iff present in every frame of a run that began strictly more than 1000 ms earlier |
| Roi.IsInsideRoi | src/pages/MonitoringPage.jsx:48-57 | the bypass admits every box; a refused box has its centre outside the ROI on some side |
| Roi.BypassAdmitsAll | src/pages/MonitoringPage.jsx:49 | editor hidden and ROI 100 by 100: every box passes |
| Roi.InsideIffCentreInRegion | src/pages/MonitoringPage.jsx:51-56 | without the bypass, a box passes iff its centre lies in the closed ROI (stated without division) |
| Roi.CornersAreInside | src/pages/MonitoringPage.jsx:53-56 | a box centred on any ROI corner passes: the boundary is inside |
| Roi.ContainedBoxIsInside | src/pages/MonitoringPage.jsx:51-56 | a box of non-negative size wholly within the ROI passes |
| Roi.OutsideCentreIsRefused | src/pages/MonitoringPage.jsx:51-56 | without the bypass, a centre outside the ROI on any side is refused |
| Roi.BypassIsFullFrame | src/pages/MonitoringPage.jsx:49 | for a valid ROI the bypass means ROI = (0,0,100,100), and it only changes the outcome for centres off the frame |
| Roi.Clamp | src/pages/MonitoringPage.jsx:149-153 | `max(lo, min(hi, v))` lies in `[lo, hi]`, equals `v` inside it, and the nearer bound outside it |
| Roi.Moved | src/pages/MonitoringPage.jsx:146-154 | a drag or resize from a valid ROI gives a valid ROI |
| Roi.DragKeepsSize | src/pages/MonitoringPage.jsx:148-150 | drag keeps width and height; x and y follow the pointer inside `[0, 100 - side]`, else stop at the edge |
| Roi.ResizeKeepsCorner | src/pages/MonitoringPage.jsx:151-153 | resize keeps x and y; width and height follow the pointer inside `[10, 100 - corner]`, else stop at the limit |
| Roi.MoveBackRestores | src/pages/MonitoringPage.jsx:146 | moves are measured from the start ROI: a zero displacement restores it |
| Alarm.Qualifying | src/pages/MonitoringPage.jsx:74-77 | a detection qualifies iff it is confirmed and passes the gate |
| Alarm.QualifyingAppend | src/pages/MonitoringPage.jsx:74-77 | the filter keeps order and duplicates: filtering a concatenation is the concatenation of the filtered parts |
| Alarm.StartAlarm | src/pages/MonitoringPage.jsx:37-41 | already active: nothing; otherwise active and exactly one `PlaySiren`; other state untouched |
| Alarm.StopAlarm | src/pages/MonitoringPage.jsx:43-46 | whatever the prior state, inactive and one `StopSiren`; Test Siren toggle not reset |
| Alarm.StartAlarmIdempotent | src/pages/MonitoringPage.jsx:38 | starting twice is starting once |
| Alarm.SaveAllHasOnlySaves | src/pages/MonitoringPage.jsx:81-83 | the history loop issues only saves |
| Alarm.EvaluateSavesEveryQualifying | src/pages/MonitoringPage.jsx:79-83 | every qualifying detection is saved, in order and first, whatever the alarm state; nothing else is saved |
| Alarm.EvaluateWithoutQualifyingIsInert | src/pages/MonitoringPage.jsx:97-101 | nothing qualifies: no effect, no state change, no auto-stop |
| Alarm.EvaluateWhileActive | src/pages/MonitoringPage.jsx:85 | active: state unchanged and only saves, no siren, vibration or email |
| Alarm.EvaluateFromIdle | src/pages/MonitoringPage.jsx:85-95 | idle and something qualifies: active, siren, vibration; `SendEmail(first, count)` iff more than 60000 ms since the last, and the time recorded only then |
| Alarm.Evaluate | src/pages/MonitoringPage.jsx:72-102 | afterwards active iff active before or something qualifies; Test Siren toggle kept; the email time is kept, or becomes the clock only when the window has passed |
| Alarm.PressActionButton | src/pages/MonitoringPage.jsx:389-406 | active: stop, toggle kept, one `StopSiren`; idle: the toggle flips and the alarm follows it, `StopSiren` when the toggle was on and `PlaySiren` when it was off; the email time is never touched |
| Alarm.ApplyThrottle | src/pages/MonitoringPage.jsx:90-94 | an event sends email only past the window and then records its own time; otherwise the time is unchanged |
| Alarm.EmailsAfterRecordedTime | src/pages/MonitoringPage.jsx:91-93 | every email of a session is more than 60000 ms after the time recorded at its start |
| Alarm.EmailsAreSpaced | src/pages/MonitoringPage.jsx:91-93 | no two emails of any session are within 60000 ms of each other, whatever the clock does |
| Alarm.ActiveAlarmIsSticky | src/pages/MonitoringPage.jsx:85-101 | once active, any run of cycles leaves the state unchanged and sends no email |
| Alarm.StopIsOverriddenWhileQualifying | src/pages/MonitoringPage.jsx:102 | a manual stop while detections still qualify is followed by re-activation and the siren |
| Alarm.TestSirenToggleSurvivesStop | src/pages/MonitoringPage.jsx:398-406 | test, stop, test again: the third press stops, because `sirenActive` survived `stopAlarm` |
| Monitoring.MonitoringPage.constructor | src/pages/MonitoringPage.jsx:23-34 | idle, last email 0, toggle off, ROI (20,20,60,60), editor hidden, no gesture |
| Monitoring.MonitoringPage.StartAlarm | src/pages/MonitoringPage.jsx:37-41 | the fields change as `Alarm.StartAlarm` says, and its commands are returned |
| Monitoring.MonitoringPage.StopAlarm | src/pages/MonitoringPage.jsx:43-46 | the fields change as `Alarm.StopAlarm` says (also run on teardown, lines 65-68) |
| Monitoring.MonitoringPage.Evaluate | src/pages/MonitoringPage.jsx:72-102 | the alert effect's loop and branches change the fields and return commands exactly as `Alarm.Evaluate` |
| Monitoring.MonitoringPage.PressActionButton | src/pages/MonitoringPage.jsx:389-406 | STOP ALARM when active, Test Siren toggle otherwise, as `Alarm.PressActionButton` |
| Monitoring.MonitoringPage.ToggleRoiControl | src/pages/MonitoringPage.jsx:193 | the editor's visibility flips |
| Monitoring.MonitoringPage.HandleStart | src/pages/MonitoringPage.jsx:115-126 | the gesture records its mode and a copy of the current ROI |
| Monitoring.MonitoringPage.HandleMove | src/pages/MonitoringPage.jsx:129-157 | no gesture: ROI unchanged; otherwise ROI = `Moved` of the start ROI; the ROI stays valid |
| Monitoring.MonitoringPage.HandleEnd | src/pages/MonitoringPage.jsx:159-161 | the gesture ends; ROI untouched and valid |
| History.Parse | src/utils/storage.js:29-36 | the parsed list, or the empty list when nothing is stored or it does not parse |
| History.Debounced | src/utils/storage.js:7-11 | the skip test: a newest record with the same label less than 10000 ms old |
| History.Prepend | src/utils/storage.js:13-20 | the list after a save: non-empty, at most 50 entries, the new record first |
| History.PrependShape | src/utils/storage.js:13-20 | new record at index 0, earlier ones after it in order, only the oldest dropped, at most 50 |
| History.OnlyNewestConsulted | src/utils/storage.js:7-9 | the debounce looks at the newest record only |
| History.OlderDuplicateDoesNotSuppress | src/utils/storage.js:7-9 | an older same-label record within 10 s does not suppress |
| History.UndebouncedSaveChangesHistory | src/utils/storage.js:9-20 | a save the debounce lets through always changes the list |
| History.SecondSaveWithinWindowSkipped | src/utils/storage.js:9-11 | a same-label save less than 10 s after a save is skipped |
| History.HistoryStore.constructor | src/utils/storage.js:1 | the slot starts with whatever is stored |
| History.HistoryStore.GetHistory | src/utils/storage.js:29-36 | empty unless the slot holds a parsed list |
| History.HistoryStore.SaveDetection | src/utils/storage.js:3-27 | debounced: `Skipped` and nothing written; write fails: `Failed` and nothing written; else `Saved` and the slot holds `Prepend(Record(d, now, date), history)` |
| History.HistoryStore.ClearHistory | src/utils/storage.js:38-40 | the slot is emptied and the history reads as empty |
| Scenarios.ElephantInsideRegionRaisesAlarm | src/pages/MonitoringPage.jsx:72-96 | elephant centred at (45,45) seen at t0 and t0+1001: confirmed, alarm on, exactly one save, siren, vibration, one email |
| Scenarios.ElephantOutsideRegionIsIgnored | src/pages/MonitoringPage.jsx:77-79 | the same elephant centred at (95,45): confirmed but no effect, no state change |
| Scenarios.MissedFrameResetsDwell | src/hooks/useDetection.js:56-59 | seen at t0, missed at t0+500, seen at t0+600: dwell 0 |
| Scenarios.ZeroClockRestartsDwell | src/hooks/useDetection.js:48 | a first-seen time of 0 reads as untracked, so the dwell restarts at the next frame |

## Left out

- Camera access and the video element lifecycle (`src/hooks/useCamera.js`): browser I/O.
- Model loading, `model.detect` and the `requestAnimationFrame` loop (`src/hooks/useDetection.js:18-29`, 33, 85-112): foreign, asynchronous calls. Predictions and the clock are inputs, and the readiness guard is the `ready` parameter of `DetectFrame`.
- The `isDetecting` flag set by `startDetection` and `stopDetection` (`src/hooks/useDetection.js:91-97`) and the frame cancellation of `stopDetection` (`src/hooks/useDetection.js:99`): the flag is part of the `ready` parameter of `DetectFrame`, and frame scheduling is left out with the loop. Its clearing of the detection list (`src/hooks/useDetection.js:98`) is `Tracking.DetectionHook.StopDetection`. The page only calls `startDetection` (`src/pages/MonitoringPage.jsx:106`); `stopDetection` is destructured at `src/pages/MonitoringPage.jsx:21` and never called.
- The pixel-to-percent conversion of boxes (`src/hooks/useDetection.js:75-80`) and of pointer deltas (`src/pages/MonitoringPage.jsx:135-144`): floating division by element sizes. Boxes arrive in percent, and `HandleMove` takes the displacement in percent.
- The `!containerRef.current` guard of `handleMove`: the model assumes the page is mounted.
- JavaScript number semantics: NaN, infinities and rounding are not modelled; reals and integers are exact.
- Audio synthesis, `navigator.vibrate` and its feature test (`src/utils/audioManager.js`, `src/pages/MonitoringPage.jsx:87`): they are effect commands only.
- The email transport, geolocation and date formatting (`src/utils/emailService.js`): only the `(detection, count)` arguments of `SendEmail` are modelled.
- localStorage and JSON mechanics, and `toLocaleString` (`src/utils/storage.js:16, 21, 31-32`): the model uses a slot datatype and a `dateString` parameter.
- React scheduling: each run of the alert effect is one explicit `Evaluate` call, and state updates take effect at once.
- Rendering, the brightness slider, the threshold slider's widget and overlay colouring: UI only. The threshold value itself is an input of `DetectFrame` and a field of each `Frame`.
- Tracking.Capitalize: the case conversion covers ASCII letters only, not JavaScript's full Unicode `toUpperCase`/`toLowerCase`.
- Several animals of one class cannot be told apart: they share one tracker entry, as in the source (`Tracking.SameClassSharesId`).
