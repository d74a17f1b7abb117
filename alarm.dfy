/** The alarm logic of the monitoring page as a reducer: each operation takes
    the page's alarm state to a new one and lists the side effects it asks
    for, in the order the page performs them. */
module Alarm {
  import opened Geometry
  import opened Tracking
  import opened Roi

  /** Minimum spacing of alert emails, strict (ms). */
  const EmailInterval: int := 60000

  /** The side effects the page performs; `SendEmail` carries the first
      qualifying detection and the number of qualifying detections. */
  datatype Command =
    | SaveDetection(detection: Detection)
    | PlaySiren
    | Vibrate
    | SendEmail(detection: Detection, count: nat)
    | StopSiren

  /** `sirenActive` is the Test Siren toggle; `lastEmailTime` starts at 0. */
  datatype AlarmState = AlarmState(isAlarmActive: bool, lastEmailTime: int, sirenActive: bool)

  datatype Step = Step(state: AlarmState, commands: seq<Command>)

  const Initial: AlarmState := AlarmState(false, 0, false)

  /** The confirmed detections whose box passes the gate, in order. */
  function Qualifying(ds: seq<Detection>, roi: Rect, showRoiControl: bool): (q: seq<Detection>)
    ensures |q| <= |ds|
    ensures forall d :: d in q <==> d in ds && d.status == Confirmed && IsInsideRoi(d.box, roi, showRoiControl)
  {
    if |ds| == 0 then []
    else if ds[0].status == Confirmed && IsInsideRoi(ds[0].box, roi, showRoiControl)
    then [ds[0]] + Qualifying(ds[1..], roi, showRoiControl)
    else Qualifying(ds[1..], roi, showRoiControl)
  }

  /** Filtering a concatenation filters each part: the gate keeps order and
      multiplicity and drops only what fails it. */
  lemma {:induction false} QualifyingAppend(a: seq<Detection>, b: seq<Detection>, roi: Rect, showRoiControl: bool)
    ensures Qualifying(a + b, roi, showRoiControl) == Qualifying(a, roi, showRoiControl) + Qualifying(b, roi, showRoiControl)
  {
    if |a| == 0 {
      assert a + b == b;
    } else {
      assert (a + b)[1..] == a[1..] + b;
      QualifyingAppend(a[1..], b, roi, showRoiControl);
    }
  }

  /** One `SaveDetection` per qualifying detection, in order. */
  function SaveAll(q: seq<Detection>): seq<Command> {
    seq(|q|, i requires 0 <= i < |q| => SaveDetection(q[i]))
  }

  predicate SendsEmail(cmds: seq<Command>) {
    exists c :: c in cmds && c.SendEmail?
  }

  /** Starting an active alarm does nothing; otherwise the alarm turns on and
      the siren is played once. */
  function StartAlarm(s: AlarmState): (r: Step)
    ensures r.state.isAlarmActive
    ensures r.state.lastEmailTime == s.lastEmailTime && r.state.sirenActive == s.sirenActive
    ensures s.isAlarmActive ==> r.commands == []
    ensures !s.isAlarmActive ==> r.commands == [PlaySiren]
  {
    if s.isAlarmActive then Step(s, [])
    else Step(s.(isAlarmActive := true), [PlaySiren])
  }

  /** Stopping always leaves the alarm off and stops the siren, whatever the
      state before; the Test Siren toggle is left as it was. */
  function StopAlarm(s: AlarmState): (r: Step)
    ensures !r.state.isAlarmActive
    ensures r.state.lastEmailTime == s.lastEmailTime && r.state.sirenActive == s.sirenActive
    ensures r.commands == [StopSiren]
  {
    Step(s.(isAlarmActive := false), [StopSiren])
  }

  /** The alert effect, run with the current detections, region and clock. */
  function Evaluate(s: AlarmState, ds: seq<Detection>, roi: Rect, showRoiControl: bool, now: int): (r: Step)
    ensures r.state.isAlarmActive <==> s.isAlarmActive || |Qualifying(ds, roi, showRoiControl)| > 0
    ensures r.state.sirenActive == s.sirenActive
    ensures r.state.lastEmailTime == s.lastEmailTime
         || (r.state.lastEmailTime == now && now - s.lastEmailTime > EmailInterval)
  {
    var q := Qualifying(ds, roi, showRoiControl);
    if |q| == 0 then Step(s, [])
    else if s.isAlarmActive then Step(s, SaveAll(q))
    else
      var started := StartAlarm(s);
      if now - s.lastEmailTime > EmailInterval
      then Step(started.state.(lastEmailTime := now),
                SaveAll(q) + started.commands + [Vibrate, SendEmail(q[0], |q|)])
      else Step(started.state, SaveAll(q) + started.commands + [Vibrate])
  }

  /** The button at the foot of the page: STOP ALARM while the alarm is on,
      otherwise the Test Siren toggle, which flips `sirenActive` and starts
      or stops the alarm to match. */
  function PressActionButton(s: AlarmState): (r: Step)
    ensures r.state.lastEmailTime == s.lastEmailTime
    ensures s.isAlarmActive ==> !r.state.isAlarmActive && r.state.sirenActive == s.sirenActive
    ensures !s.isAlarmActive ==> (r.state.sirenActive == !s.sirenActive &&
                                  r.state.isAlarmActive == r.state.sirenActive)
    ensures r.commands == if s.isAlarmActive || s.sirenActive then [StopSiren] else [PlaySiren]
  {
    if s.isAlarmActive then StopAlarm(s)
    else
      var toggled := s.(sirenActive := !s.sirenActive);
      if toggled.sirenActive then StartAlarm(toggled) else StopAlarm(toggled)
  }

  // ---------------------------------------------------------------------
  // One evaluation

  lemma SaveAllHasOnlySaves(q: seq<Detection>)
    ensures forall c :: c in SaveAll(q) ==> c.SaveDetection?
  {
  }

  /** Every qualifying detection is saved, in order and before any other
      effect, whether the alarm was on or not; nothing else is saved. */
  lemma EvaluateSavesEveryQualifying(s: AlarmState, ds: seq<Detection>, roi: Rect, showRoiControl: bool, now: int)
    ensures
      var q := Qualifying(ds, roi, showRoiControl);
      var cmds := Evaluate(s, ds, roi, showRoiControl, now).commands;
      && |cmds| >= |q|
      && (forall i :: 0 <= i < |q| ==> cmds[i] == SaveDetection(q[i]))
      && (forall i :: |q| <= i < |cmds| ==> !cmds[i].SaveDetection?)
  {
  }

  /** Nothing qualifies: no effect at all and no change of state; in
      particular an active alarm is not switched off. */
  lemma EvaluateWithoutQualifyingIsInert(s: AlarmState, ds: seq<Detection>, roi: Rect, showRoiControl: bool, now: int)
    requires |Qualifying(ds, roi, showRoiControl)| == 0
    ensures Evaluate(s, ds, roi, showRoiControl, now) == Step(s, [])
  {
  }

  /** An active alarm stays as it is: no siren, vibration or email, and the
      throttle clock is untouched. */
  lemma EvaluateWhileActive(s: AlarmState, ds: seq<Detection>, roi: Rect, showRoiControl: bool, now: int)
    requires s.isAlarmActive
    ensures Evaluate(s, ds, roi, showRoiControl, now).state == s
    ensures forall c :: c in Evaluate(s, ds, roi, showRoiControl, now).commands ==> c.SaveDetection?
  {
  }

  /** From idle with something qualifying: the alarm turns on, the siren plays
      and the device vibrates; the email goes out, with the first qualifying
      detection and their number, exactly when more than the interval has
      passed since the last one, and only then is its time recorded. */
  lemma EvaluateFromIdle(s: AlarmState, ds: seq<Detection>, roi: Rect, showRoiControl: bool, now: int)
    requires !s.isAlarmActive
    requires |Qualifying(ds, roi, showRoiControl)| > 0
    ensures
      var q := Qualifying(ds, roi, showRoiControl);
      var r := Evaluate(s, ds, roi, showRoiControl, now);
      && r.state.isAlarmActive
      && r.state.sirenActive == s.sirenActive
      && PlaySiren in r.commands && Vibrate in r.commands && StopSiren !in r.commands
      && (SendEmail(q[0], |q|) in r.commands <==> now - s.lastEmailTime > EmailInterval)
      && (SendsEmail(r.commands) ==> SendEmail(q[0], |q|) in r.commands)
      && r.state.lastEmailTime == (if now - s.lastEmailTime > EmailInterval then now else s.lastEmailTime)
  {
  }

  /** Starting twice is the same as starting once. */
  lemma StartAlarmIdempotent(s: AlarmState)
    ensures StartAlarm(StartAlarm(s).state) == Step(StartAlarm(s).state, [])
  {
  }

  // ---------------------------------------------------------------------
  // Sessions: sequences of events

  datatype Event =
    | Cycle(detections: seq<Detection>, roi: Rect, showRoiControl: bool, now: int)
    | ActionButton

  function Apply(s: AlarmState, e: Event): Step {
    match e
    case Cycle(ds, roi, show, now) => Evaluate(s, ds, roi, show, now)
    case ActionButton => PressActionButton(s)
  }

  /** The state after a sequence of events. */
  function Run(s: AlarmState, es: seq<Event>): AlarmState
    decreases |es|
  {
    if |es| == 0 then s else Run(Apply(s, es[0]).state, es[1..])
  }

  /** The clock readings of the events that sent an email. */
  function EmailTimes(s: AlarmState, es: seq<Event>): seq<int>
    decreases |es|
  {
    if |es| == 0 then []
    else
      var st := Apply(s, es[0]);
      (if es[0].Cycle? && SendsEmail(st.commands) then [es[0].now] else [])
        + EmailTimes(st.state, es[1..])
  }

  /** One event sends an email only when more than the interval has passed
      since the recorded time, and then records its own time; any other event
      leaves the recorded time alone. */
  lemma ApplyThrottle(s: AlarmState, e: Event)
    ensures SendsEmail(Apply(s, e).commands) ==>
      e.Cycle? && e.now - s.lastEmailTime > EmailInterval && Apply(s, e).state.lastEmailTime == e.now
    ensures !SendsEmail(Apply(s, e).commands) ==> Apply(s, e).state.lastEmailTime == s.lastEmailTime
  {
    match e
    case ActionButton =>
    case Cycle(ds, roi, show, now) =>
      var q := Qualifying(ds, roi, show);
      SaveAllHasOnlySaves(q);
      if |q| > 0 && !s.isAlarmActive {
        EvaluateFromIdle(s, ds, roi, show, now);
      }
  }

  /** Every email of a session is sent more than the interval after the time
      recorded when the session began. */
  lemma {:induction false} EmailsAfterRecordedTime(s: AlarmState, es: seq<Event>)
    ensures forall k :: 0 <= k < |EmailTimes(s, es)| ==> EmailTimes(s, es)[k] - s.lastEmailTime > EmailInterval
    decreases |es|
  {
    if |es| > 0 {
      var st := Apply(s, es[0]);
      ApplyThrottle(s, es[0]);
      EmailsAfterRecordedTime(st.state, es[1..]);
    }
  }

  /** Any two of the readings `t` are more than the interval apart. */
  predicate Spaced(t: seq<int>) {
    forall i, j :: 0 <= i < j < |t| ==> t[j] - t[i] > EmailInterval
  }

  /** No two emails of a session are within the interval of each other, the
      clock readings of the events being arbitrary. */
  lemma {:induction false} EmailsAreSpaced(s: AlarmState, es: seq<Event>)
    ensures Spaced(EmailTimes(s, es))
    decreases |es|
  {
    if |es| > 0 {
      var st := Apply(s, es[0]);
      var rest := EmailTimes(st.state, es[1..]);
      ApplyThrottle(s, es[0]);
      EmailsAfterRecordedTime(st.state, es[1..]);
      EmailsAreSpaced(st.state, es[1..]);
      var t := EmailTimes(s, es);
      assert forall k :: 0 <= k < |rest| ==> rest[k] - st.state.lastEmailTime > EmailInterval;
      if es[0].Cycle? && SendsEmail(st.commands) {
        assert t == [es[0].now] + rest;
        forall i, j | 0 <= i < j < |t| ensures t[j] - t[i] > EmailInterval {
          assert t[j] == rest[j - 1];
          if i == 0 {
            assert t[i] == st.state.lastEmailTime;
          } else {
            assert t[i] == rest[i - 1];
          }
        }
      } else {
        assert t == rest;
      }
    }
  }

  predicate OnlyCycles(es: seq<Event>) {
    forall k :: 0 <= k < |es| ==> es[k].Cycle?
  }

  /** Once active, the alarm stays active through any number of cycles and
      never plays the siren, vibrates or emails again. */
  lemma {:induction false} ActiveAlarmIsSticky(s: AlarmState, es: seq<Event>)
    requires s.isAlarmActive && OnlyCycles(es)
    ensures Run(s, es) == s
    ensures EmailTimes(s, es) == []
    decreases |es|
  {
    if |es| > 0 {
      var e := es[0];
      EvaluateWhileActive(s, e.detections, e.roi, e.showRoiControl, e.now);
      assert !SendsEmail(Apply(s, e).commands);
      assert OnlyCycles(es[1..]) by {
        assert forall k :: 0 <= k < |es| - 1 ==> es[1..][k] == es[k + 1];
      }
      ActiveAlarmIsSticky(s, es[1..]);
    }
  }

  /** A manual stop while something still qualifies is undone by the very
      next evaluation: the alarm turns on again and the siren plays. */
  lemma StopIsOverriddenWhileQualifying(s: AlarmState, ds: seq<Detection>, roi: Rect, showRoiControl: bool, now: int)
    requires s.isAlarmActive
    requires |Qualifying(ds, roi, showRoiControl)| > 0
    ensures var stopped := PressActionButton(s);
      && stopped.commands == [StopSiren]
      && Evaluate(stopped.state, ds, roi, showRoiControl, now).state.isAlarmActive
      && PlaySiren in Evaluate(stopped.state, ds, roi, showRoiControl, now).commands
  {
  }

  /** The Test Siren toggle is not cleared by STOP ALARM: after test, stop,
      the next press of Test Siren stops instead of starting. */
  lemma TestSirenToggleSurvivesStop()
    ensures var tested := PressActionButton(Initial);
      && tested.commands == [PlaySiren] && tested.state.isAlarmActive
      && var stopped := PressActionButton(tested.state);
      && stopped.commands == [StopSiren] && stopped.state.sirenActive
      && var again := PressActionButton(stopped.state);
      && again.commands == [StopSiren] && !again.state.isAlarmActive && !again.state.sirenActive
  {
  }
}
