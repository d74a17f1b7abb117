/** Whole-pipeline examples: frames through the tracker, the gate and the
    alarm reducer. */
module Scenarios {
  import opened Geometry
  import opened Tracking
  import opened Roi
  import opened Alarm

  const Threshold: real := 0.90

  function Elephant(box: Rect): Prediction {
    Prediction("elephant", 0.95, box)
  }

  /** The elephant prediction passes the filter unchanged. */
  lemma ElephantSurvives(box: Rect)
    ensures Surviving([Elephant(box)], Threshold) == [Elephant(box)]
  {
    assert ToLower("elephant") == "elephant";
  }

  /** An elephant seen at `t0` and again 1001 ms later is confirmed; centred
      at (45, 45) it is inside the initial region, so the idle alarm turns on
      and exactly one history save and one email are asked for. */
  lemma ElephantInsideRegionRaisesAlarm(t0: int)
    requires t0 > EmailInterval
    ensures
      var f := Frame([Elephant(Rect(40.0, 40.0, 10.0, 10.0))], Threshold, t0);
      var g := Frame([Elephant(Rect(40.0, 40.0, 10.0, 10.0))], Threshold, t0 + 1001);
      var ds := CycleDetections(Replay([f]), g.predictions, g.now, Threshold);
      var r := Evaluate(Initial, ds, InitialRoi, false, t0 + 1001);
      && |ds| == 1 && ds[0].status == Confirmed && ds[0].name == "Elephant"
      && r.state.isAlarmActive && r.state.lastEmailTime == t0 + 1001
      && r.commands == [SaveDetection(ds[0]), PlaySiren, Vibrate, SendEmail(ds[0], 1)]
  {
    var box := Rect(40.0, 40.0, 10.0, 10.0);
    var f := Frame([Elephant(box)], Threshold, t0);
    var g := Frame([Elephant(box)], Threshold, t0 + 1001);
    ElephantSurvives(box);
    assert Labels([Elephant(box)]) == ["elephant"];
    assert [f][..0] == [];
    assert Replay([f]) == map["elephant" := t0];
    var ds := CycleDetections(Replay([f]), g.predictions, g.now, Threshold);
    assert ds[0].status == Confirmed;
    assert Qualifying(ds, InitialRoi, false) == ds;
  }

  /** The same elephant centred at (95, 45) is confirmed but outside the
      region: no effect and no change of state. */
  lemma ElephantOutsideRegionIsIgnored(t0: int)
    requires t0 > EmailInterval
    ensures
      var f := Frame([Elephant(Rect(90.0, 40.0, 10.0, 10.0))], Threshold, t0);
      var g := Frame([Elephant(Rect(90.0, 40.0, 10.0, 10.0))], Threshold, t0 + 1001);
      var ds := CycleDetections(Replay([f]), g.predictions, g.now, Threshold);
      && |ds| == 1 && ds[0].status == Confirmed
      && Evaluate(Initial, ds, InitialRoi, false, t0 + 1001) == Step(Initial, [])
  {
    var box := Rect(90.0, 40.0, 10.0, 10.0);
    var f := Frame([Elephant(box)], Threshold, t0);
    var g := Frame([Elephant(box)], Threshold, t0 + 1001);
    ElephantSurvives(box);
    assert Labels([Elephant(box)]) == ["elephant"];
    assert [f][..0] == [];
    assert Replay([f]) == map["elephant" := t0];
    var ds := CycleDetections(Replay([f]), g.predictions, g.now, Threshold);
    assert !IsInsideRoi(ds[0].box, InitialRoi, false);
    assert Qualifying(ds, InitialRoi, false) == [];
  }

  /** Seen at `t0`, missed at `t0 + 500`, seen again at `t0 + 600`: the dwell
      at `t0 + 600` is 0, not 500. */
  lemma MissedFrameResetsDwell(t0: int)
    requires t0 > 0
    ensures
      var box := Rect(40.0, 40.0, 10.0, 10.0);
      var frames := [Frame([Elephant(box)], Threshold, t0), Frame([], Threshold, t0 + 500)];
      var ds := CycleDetections(Replay(frames), [Elephant(box)], t0 + 600, Threshold);
      |ds| == 1 && ds[0].duration == 0
  {
    var box := Rect(40.0, 40.0, 10.0, 10.0);
    var frames := [Frame([Elephant(box)], Threshold, t0), Frame([], Threshold, t0 + 500)];
    ElephantSurvives(box);
    assert Labels([Elephant(box)]) == ["elephant"];
    assert frames[..1] == [frames[0]];
    assert [frames[0]][..0] == [];
    assert Replay(frames) == map[];
  }

  /** A clock reading of 0 is stored as a first-seen time that reads as
      untracked, so an elephant seen from time 0 onwards restarts its dwell at
      the second frame and is still verifying at 1001 ms. */
  lemma ZeroClockRestartsDwell()
    ensures
      var box := Rect(40.0, 40.0, 10.0, 10.0);
      var ds := CycleDetections(Replay([Frame([Elephant(box)], Threshold, 0)]), [Elephant(box)], 1001, Threshold);
      |ds| == 1 && ds[0].status == Verifying && ds[0].duration == 0
  {
    var box := Rect(40.0, 40.0, 10.0, 10.0);
    var f := Frame([Elephant(box)], Threshold, 0);
    ElephantSurvives(box);
    assert Labels([Elephant(box)]) == ["elephant"];
    assert [f][..0] == [];
    assert Replay([f]) == map["elephant" := 0];
  }
}
