/** The monitoring page's session state, updated in place by its handlers.
    Each handler is proved to do what the matching function of `Alarm` or
    `Roi` describes, and to keep the region valid. */
module Monitoring {
  import opened Geometry
  import opened Tracking
  import opened Roi
  import opened Alarm

  /** A drag or resize in progress remembers the region it started from;
      every pointer move is measured from there. */
  datatype Interaction = NoInteraction | Interacting(gesture: Gesture, startRoi: Rect)

  class MonitoringPage {
    var isAlarmActive: bool
    var lastEmailTime: int
    var sirenActive: bool
    var roi: Rect
    var showRoiControl: bool
    var interaction: Interaction

    /** The region, and the region a gesture started from, stay valid. */
    ghost predicate Valid()
      reads this
    {
      ValidRoi(roi) && (interaction.Interacting? ==> ValidRoi(interaction.startRoi))
    }

    /** The part of the page's state the alarm logic works on. */
    function State(): AlarmState
      reads this
    {
      AlarmState(isAlarmActive, lastEmailTime, sirenActive)
    }

    constructor ()
      ensures Valid()
      ensures State() == Initial
      ensures roi == InitialRoi && !showRoiControl && interaction == NoInteraction
    {
      isAlarmActive, lastEmailTime, sirenActive := false, 0, false;
      roi := InitialRoi;
      showRoiControl := false;
      interaction := NoInteraction;
    }

    method StartAlarm() returns (cmds: seq<Command>)
      requires Valid()
      modifies this`isAlarmActive
      ensures Valid()
      ensures State() == Alarm.StartAlarm(old(State())).state
      ensures cmds == Alarm.StartAlarm(old(State())).commands
    {
      if isAlarmActive {
        return [];
      }
      isAlarmActive := true;
      cmds := [PlaySiren];
    }

    /** Also what the page runs when it is torn down. */
    method StopAlarm() returns (cmds: seq<Command>)
      requires Valid()
      modifies this`isAlarmActive
      ensures Valid()
      ensures State() == Alarm.StopAlarm(old(State())).state
      ensures cmds == Alarm.StopAlarm(old(State())).commands
    {
      isAlarmActive := false;
      cmds := [StopSiren];
    }

    /** The alert effect, run whenever the detections, the region, the alarm
        flag or the email time change; `now` is the clock reading it takes. */
    method Evaluate(detections: seq<Detection>, now: int) returns (cmds: seq<Command>)
      requires Valid()
      modifies this`isAlarmActive, this`lastEmailTime
      ensures Valid()
      ensures State() == Alarm.Evaluate(old(State()), detections, roi, showRoiControl, now).state
      ensures cmds == Alarm.Evaluate(old(State()), detections, roi, showRoiControl, now).commands
    {
      var animalsInRoi := Qualifying(detections, roi, showRoiControl);
      cmds := [];
      if |animalsInRoi| > 0 {
        var i := 0;
        while i < |animalsInRoi|
          invariant 0 <= i <= |animalsInRoi|
          invariant cmds == SaveAll(animalsInRoi[..i])
        {
          cmds := cmds + [SaveDetection(animalsInRoi[i])];
          i := i + 1;
        }
        assert animalsInRoi[..i] == animalsInRoi;
        if !isAlarmActive {
          var started := StartAlarm();
          cmds := cmds + started + [Vibrate];
          if now - lastEmailTime > EmailInterval {
            cmds := cmds + [SendEmail(animalsInRoi[0], |animalsInRoi|)];
            lastEmailTime := now;
          }
        }
      }
    }

    /** STOP ALARM while the alarm is on, Test Siren otherwise. */
    method PressActionButton() returns (cmds: seq<Command>)
      requires Valid()
      modifies this`isAlarmActive, this`sirenActive
      ensures Valid()
      ensures State() == Alarm.PressActionButton(old(State())).state
      ensures cmds == Alarm.PressActionButton(old(State())).commands
    {
      if isAlarmActive {
        cmds := StopAlarm();
      } else {
        var newState := !sirenActive;
        sirenActive := newState;
        if newState {
          cmds := StartAlarm();
        } else {
          cmds := StopAlarm();
        }
      }
    }

    /** The ROI button shows or hides the editor. */
    method ToggleRoiControl()
      requires Valid()
      modifies this`showRoiControl
      ensures Valid()
      ensures showRoiControl == !old(showRoiControl)
    {
      showRoiControl := !showRoiControl;
    }

    /** Pointer down on the region (drag) or its handle (resize). */
    method HandleStart(g: Gesture)
      requires Valid()
      modifies this`interaction
      ensures Valid()
      ensures interaction == Interacting(g, roi)
    {
      interaction := Interacting(g, roi);
    }

    /** Pointer moved by `dx`, `dy` percent of the frame since the gesture
        started; nothing happens when no gesture is in progress. */
    method HandleMove(dx: real, dy: real)
      requires Valid()
      modifies this`roi
      ensures Valid()
      ensures interaction.NoInteraction? ==> roi == old(roi)
      ensures interaction.Interacting? ==> roi == Moved(interaction.gesture, interaction.startRoi, dx, dy)
    {
      if interaction.NoInteraction? {
        return;
      }
      var start := interaction.startRoi;
      var newRoi := start;
      if interaction.gesture == Drag {
        newRoi := newRoi.(x := Max(0.0, Min(100.0 - newRoi.width, newRoi.x + dx)));
        newRoi := newRoi.(y := Max(0.0, Min(100.0 - newRoi.height, newRoi.y + dy)));
      } else {
        newRoi := newRoi.(width := Max(MinSide, Min(100.0 - newRoi.x, newRoi.width + dx)));
        newRoi := newRoi.(height := Max(MinSide, Min(100.0 - newRoi.y, newRoi.height + dy)));
      }
      roi := newRoi;
    }

    /** Pointer up or leaving the page ends the gesture. */
    method HandleEnd()
      requires Valid()
      modifies this`interaction
      ensures Valid()
      ensures interaction == NoInteraction
    {
      interaction := NoInteraction;
    }
  }
}
