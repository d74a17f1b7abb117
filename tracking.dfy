/** The temporal persistence tracker of the detection hook: raw classifier
    predictions are filtered, each surviving class is timed from the first
    frame of its current unbroken run of frames, and every surviving
    prediction is reported as verifying or confirmed. */
module Tracking {
  import opened Geometry

  /** A class must have been seen for strictly longer than this (ms). */
  const PersistenceDuration: int := 1000

  /** Lower-cased class names that count as threats. */
  const AllowedClasses: seq<string> := ["elephant", "bear"]

  /** One raw prediction of the classifier, its box already in percent. */
  datatype Prediction = Prediction(cls: string, score: real, box: Rect)

  datatype Status = Verifying | Confirmed

  /** The source builds the id by concatenating the class and its first-seen
      time; the pair carries the same information. */
  datatype DetectionId = DetectionId(cls: string, firstSeen: int)

  /** One entry of the hook's `detections` list; `name` is the display label. */
  datatype Detection = Detection(
    id: DetectionId,
    name: string,
    confidence: real,
    status: Status,
    duration: int,
    box: Rect)

  // ---------------------------------------------------------------------
  // Case conversion (ASCII letters only)

  function LowerChar(c: char): char {
    if 'A' <= c <= 'Z' then (c as int + 32) as char else c
  }

  function UpperChar(c: char): char {
    if 'a' <= c <= 'z' then (c as int - 32) as char else c
  }

  function ToLower(s: string): string {
    seq(|s|, i requires 0 <= i < |s| => LowerChar(s[i]))
  }

  /** The display label: first character upper-cased, the rest unchanged. */
  function Capitalize(s: string): (r: string)
    ensures |r| == |s|
    ensures |s| > 0 ==> r[0] == UpperChar(s[0]) && r[1..] == s[1..]
  {
    if |s| == 0 then "" else [UpperChar(s[0])] + s[1..]
  }

  /** Capitalising a label does not change which class it names once it is
      lower-cased again, so a displayed label still names an allowed class. */
  lemma CapitalizeKeepsClass(s: string)
    ensures ToLower(Capitalize(s)) == ToLower(s)
  {
  }

  // ---------------------------------------------------------------------
  // Filter

  /** The score and class test a raw prediction must pass. */
  predicate Survives(p: Prediction, threshold: real) {
    p.score >= threshold && ToLower(p.cls) in AllowedClasses
  }

  /** The predictions that pass the test, in their original order. */
  function Surviving(ps: seq<Prediction>, threshold: real): (r: seq<Prediction>)
    ensures |r| <= |ps|
    ensures forall p :: p in r <==> p in ps && Survives(p, threshold)
  {
    if |ps| == 0 then []
    else if Survives(ps[0], threshold) then [ps[0]] + Surviving(ps[1..], threshold)
    else Surviving(ps[1..], threshold)
  }

  /** The filter keeps the order: filtering a concatenation concatenates the
      filtered parts. */
  lemma {:induction false} SurvivingAppend(a: seq<Prediction>, b: seq<Prediction>, threshold: real)
    ensures Surviving(a + b, threshold) == Surviving(a, threshold) + Surviving(b, threshold)
  {
    if |a| == 0 {
      assert a + b == b;
    } else {
      assert (a + b)[1..] == a[1..] + b;
      SurvivingAppend(a[1..], b, threshold);
    }
  }

  /** The class names of `ps`, in order, duplicates kept. */
  function Labels(ps: seq<Prediction>): seq<string> {
    seq(|ps|, i requires 0 <= i < |ps| => ps[i].cls)
  }

  lemma LabelsMembership(ps: seq<Prediction>, l: string)
    ensures l in Labels(ps) <==> exists p :: p in ps && p.cls == l
  {
    if l in Labels(ps) {
      var i :| 0 <= i < |ps| && Labels(ps)[i] == l;
      assert ps[i] in ps;
    }
    if exists p :: p in ps && p.cls == l {
      var p :| p in ps && p.cls == l;
      var i :| 0 <= i < |ps| && ps[i] == p;
      assert Labels(ps)[i] == l;
    }
  }

  // ---------------------------------------------------------------------
  // Tracker update

  /** The tracker after one cycle in which `labels` survived: exactly those
      labels are tracked; one already tracked keeps its first-seen time, and
      the others start at `now`. A stored time of 0 reads as untracked, as in
      the source's truthiness test. */
  function Tracked(prev: map<string, int>, labels: seq<string>, now: int): (r: map<string, int>)
    ensures forall l :: l in r <==> l in labels
    ensures forall l :: l in r ==> r[l] == now || (l in prev && r[l] == prev[l] != 0)
  {
    map l | l in labels :: if l in prev && prev[l] != 0 then prev[l] else now
  }

  /** After a cycle the tracked labels are exactly the classes of the
      predictions that passed the filter: new ones are added and absent ones
      removed. */
  lemma TrackedKeysAreSurvivors(prev: map<string, int>, ps: seq<Prediction>, threshold: real, now: int, l: string)
    ensures l in Tracked(prev, Labels(Surviving(ps, threshold)), now)
        <==> exists p :: p in ps && Survives(p, threshold) && p.cls == l
  {
    LabelsMembership(Surviving(ps, threshold), l);
  }

  /** A label present in two consecutive cycles keeps the first-seen time it
      had (when that time is not 0). */
  lemma PresenceKeepsFirstSeen(prev: map<string, int>, labels: seq<string>, now: int, l: string)
    requires l in prev && prev[l] != 0 && l in labels
    ensures Tracked(prev, labels, now)[l] == prev[l]
  {
  }

  /** A label missing from one cycle loses its entry; when it reappears its
      first-seen time is the reappearance time and its dwell is zero. */
  lemma AbsenceRestartsClock(prev: map<string, int>, missing: seq<string>, t1: int,
                             again: seq<string>, t2: int, p: Prediction)
    requires p.cls !in missing && p.cls in again
    ensures p.cls !in Tracked(prev, missing, t1)
    ensures Tracked(Tracked(prev, missing, t1), again, t2)[p.cls] == t2
    ensures ToDetection(p, Tracked(Tracked(prev, missing, t1), again, t2)[p.cls], t2).duration == 0
  {
  }

  /** With positive clock readings every tracked time stays positive, so the
      truthiness test never mistakes a tracked label for a new one. */
  lemma TrackedStaysPositive(prev: map<string, int>, labels: seq<string>, now: int)
    requires now > 0
    requires forall l :: l in prev ==> prev[l] > 0
    ensures forall l :: l in Tracked(prev, labels, now) ==> Tracked(prev, labels, now)[l] > 0
  {
  }

  /** While the clock does not go backwards, the dwell of a label present in
      consecutive cycles never decreases and its first-seen time is kept. */
  lemma DwellNeverDecreases(prev: map<string, int>, labels1: seq<string>, t1: int,
                            labels2: seq<string>, t2: int, l: string)
    requires 0 < t1 <= t2
    requires forall k :: k in prev ==> prev[k] > 0
    requires l in labels1 && l in labels2
    ensures l in Tracked(prev, labels1, t1)
    ensures Tracked(Tracked(prev, labels1, t1), labels2, t2)[l] == Tracked(prev, labels1, t1)[l]
    ensures t2 - Tracked(Tracked(prev, labels1, t1), labels2, t2)[l] >= t1 - Tracked(prev, labels1, t1)[l]
  {
  }

  // ---------------------------------------------------------------------
  // Result building

  /** The reported entry for prediction `p` whose class was first seen at
      `firstSeen`. */
  function ToDetection(p: Prediction, firstSeen: int, now: int): (r: Detection)
    ensures r.id == DetectionId(p.cls, firstSeen) && r.duration == now - firstSeen
    ensures r.status == Confirmed <==> r.duration > PersistenceDuration
    ensures r.name == Capitalize(p.cls) && r.confidence == p.score && r.box == p.box
  {
    var duration := now - firstSeen;
    Detection(
      DetectionId(p.cls, firstSeen),
      Capitalize(p.cls),
      p.score,
      if duration > PersistenceDuration then Confirmed else Verifying,
      duration,
      p.box)
  }

  /** One entry per surviving prediction, in the same order. */
  function Results(raw: seq<Prediction>, tracker: map<string, int>, now: int): (r: seq<Detection>)
    requires forall i :: 0 <= i < |raw| ==> raw[i].cls in tracker
    ensures |r| == |raw|
  {
    seq(|raw|, i requires 0 <= i < |raw| => ToDetection(raw[i], tracker[raw[i].cls], now))
  }

  /** Every surviving class is tracked once the cycle's update is done. */
  lemma TrackedCoversLabels(prev: map<string, int>, raw: seq<Prediction>, now: int)
    ensures forall i :: 0 <= i < |raw| ==> raw[i].cls in Tracked(prev, Labels(raw), now)
  {
    assert forall i :: 0 <= i < |raw| ==> Labels(raw)[i] == raw[i].cls;
  }

  /** The detections one cycle publishes, given the tracker before it. */
  function CycleDetections(prev: map<string, int>, predictions: seq<Prediction>, now: int, threshold: real): (r: seq<Detection>)
    ensures |r| == |Surviving(predictions, threshold)|
  {
    var raw := Surviving(predictions, threshold);
    TrackedCoversLabels(prev, raw, now);
    Results(raw, Tracked(prev, Labels(raw), now), now)
  }

  /** What each result says about its prediction: same score and box, the
      capitalised class, its dwell since the class was first seen, and
      `Confirmed` exactly when that dwell is strictly over the persistence
      duration. */
  lemma ResultsDescribePredictions(raw: seq<Prediction>, tracker: map<string, int>, now: int, i: int)
    requires forall k :: 0 <= k < |raw| ==> raw[k].cls in tracker
    requires 0 <= i < |raw|
    ensures Results(raw, tracker, now)[i].confidence == raw[i].score
    ensures Results(raw, tracker, now)[i].box == raw[i].box
    ensures Results(raw, tracker, now)[i].name == Capitalize(raw[i].cls)
    ensures Results(raw, tracker, now)[i].duration == now - tracker[raw[i].cls]
    ensures Results(raw, tracker, now)[i].status == Confirmed <==> now - tracker[raw[i].cls] > PersistenceDuration
  {
  }

  /** Predictions of the same class share one first-seen time, one id and one
      dwell: the tracker cannot tell two animals of a kind apart. */
  lemma SameClassSharesId(raw: seq<Prediction>, tracker: map<string, int>, now: int, i: int, j: int)
    requires forall k :: 0 <= k < |raw| ==> raw[k].cls in tracker
    requires 0 <= i < |raw| && 0 <= j < |raw| && raw[i].cls == raw[j].cls
    ensures Results(raw, tracker, now)[i].id == Results(raw, tracker, now)[j].id
    ensures Results(raw, tracker, now)[i].duration == Results(raw, tracker, now)[j].duration
    ensures Results(raw, tracker, now)[i].status == Results(raw, tracker, now)[j].status
  {
  }

  /** Every reported label, lower-cased, is one of the allowed classes. */
  lemma ReportedLabelsAreAllowed(ps: seq<Prediction>, threshold: real, tracker: map<string, int>, now: int, i: int)
    requires forall k :: 0 <= k < |Surviving(ps, threshold)| ==> Surviving(ps, threshold)[k].cls in tracker
    requires 0 <= i < |Surviving(ps, threshold)|
    ensures ToLower(Results(Surviving(ps, threshold), tracker, now)[i].name) in AllowedClasses
  {
    var p := Surviving(ps, threshold)[i];
    assert p in Surviving(ps, threshold);
    CapitalizeKeepsClass(p.cls);
  }

  // ---------------------------------------------------------------------
  // The hook's state

  /** The detection hook: the label-to-first-seen dictionary and the list of
      detections last published. */
  class DetectionHook {
    var firstSeen: map<string, int>
    var detections: seq<Detection>

    constructor ()
      ensures firstSeen == map[] && detections == []
    {
      firstSeen := map[];
      detections := [];
    }

    /** Stopping detection clears the published list but keeps the tracker,
        so first-seen times recorded before the stop survive it. */
    method StopDetection()
      modifies this`detections
      ensures detections == [] && firstSeen == old(firstSeen)
    {
      detections := [];
    }

    /** One pass of the frame loop. `ready` stands for the guard "video
        ready, model loaded and detecting"; `predictions` is what the model
        returned for this frame and `now` the clock reading taken after it. */
    method DetectFrame(ready: bool, predictions: seq<Prediction>, now: int, threshold: real)
      modifies this
      ensures !ready ==> firstSeen == old(firstSeen) && detections == old(detections)
      ensures ready ==> firstSeen == Tracked(old(firstSeen), Labels(Surviving(predictions, threshold)), now)
      ensures ready ==> detections == CycleDetections(old(firstSeen), predictions, now, threshold)
    {
      if !ready {
        return;
      }
      var raw := Surviving(predictions, threshold);
      var currentLabels := Labels(raw);
      ghost var before := firstSeen;

      // Start tracking labels not tracked yet.
      var i := 0;
      while i < |currentLabels|
        invariant 0 <= i <= |currentLabels|
        invariant forall l :: l in firstSeen <==> l in before || l in currentLabels[..i]
        invariant forall l :: l in firstSeen ==>
          firstSeen[l] == if l in currentLabels[..i]
                          then (if l in before && before[l] != 0 then before[l] else now)
                          else before[l]
      {
        var key := currentLabels[i];
        assert currentLabels[..i + 1] == currentLabels[..i] + [key];
        if key !in firstSeen || firstSeen[key] == 0 {
          firstSeen := firstSeen[key := now];
        }
        i := i + 1;
      }
      assert currentLabels[..i] == currentLabels;

      // Drop every tracked label absent from this frame.
      ghost var inserted := firstSeen;
      var keys := firstSeen.Keys;
      while keys != {}
        invariant keys <= inserted.Keys
        invariant forall l :: l in firstSeen <==> l in inserted && (l in keys || l in currentLabels)
        invariant forall l :: l in firstSeen ==> firstSeen[l] == inserted[l]
        decreases keys
      {
        var key :| key in keys;
        if key !in currentLabels {
          firstSeen := firstSeen - {key};
        }
        keys := keys - {key};
      }
      assert firstSeen == Tracked(before, currentLabels, now);
      assert forall k :: 0 <= k < |raw| ==> raw[k].cls == currentLabels[k];
      detections := Results(raw, firstSeen, now);
    }
  }

  // ---------------------------------------------------------------------
  // Runs of frames

  /** One pass of the frame loop: the model's predictions, the threshold the
      slider held at that moment, and the clock reading. */
  datatype Frame = Frame(predictions: seq<Prediction>, threshold: real, now: int)

  /** Class `l` survives the filter in frame `f`. */
  predicate Present(f: Frame, l: string) {
    l in Labels(Surviving(f.predictions, f.threshold))
  }

  /** The tracker after a run of frames, starting from the empty dictionary. */
  function Replay(frames: seq<Frame>): (r: map<string, int>)
    ensures |frames| == 0 ==> r == map[]
    ensures |frames| > 0 ==> forall l :: l in r <==> Present(frames[|frames| - 1], l)
  {
    if |frames| == 0 then map[]
    else Tracked(Replay(frames[..|frames| - 1]),
                 Labels(Surviving(frames[|frames| - 1].predictions, frames[|frames| - 1].threshold)),
                 frames[|frames| - 1].now)
  }

  /** Index of the first frame of the unbroken run of frames, ending at the
      last one, in which `l` is present. */
  function RunStart(frames: seq<Frame>, l: string): (k: nat)
    requires |frames| > 0 && Present(frames[|frames| - 1], l)
    ensures k < |frames|
    ensures forall j :: k <= j < |frames| ==> Present(frames[j], l)
    ensures k == 0 || !Present(frames[k - 1], l)
  {
    var n := |frames|;
    if n == 1 || !Present(frames[n - 2], l) then n - 1
    else
      var k := RunStart(frames[..n - 1], l);
      assert forall j :: k <= j < n - 1 ==> frames[..n - 1][j] == frames[j];
      k
  }

  predicate PositiveClock(frames: seq<Frame>) {
    forall j :: 0 <= j < |frames| ==> frames[j].now > 0
  }

  lemma {:induction false} ReplayPositive(frames: seq<Frame>)
    requires PositiveClock(frames)
    ensures forall l :: l in Replay(frames) ==> Replay(frames)[l] > 0
  {
    if |frames| > 0 {
      var n := |frames|;
      ReplayPositive(frames[..n - 1]);
      TrackedStaysPositive(Replay(frames[..n - 1]),
                           Labels(Surviving(frames[n - 1].predictions, frames[n - 1].threshold)), frames[n - 1].now);
    }
  }

  /** Over any run of frames with positive clock readings, a label present in
      the last frame is recorded with the time of the first frame of its
      current unbroken run. */
  lemma {:induction false} FirstSeenIsRunStart(frames: seq<Frame>, l: string)
    requires |frames| > 0 && Present(frames[|frames| - 1], l)
    requires PositiveClock(frames)
    ensures l in Replay(frames)
    ensures Replay(frames)[l] == frames[RunStart(frames, l)].now
  {
    var n := |frames|;
    var prefix := frames[..n - 1];
    assert PositiveClock(prefix) by {
      assert forall j :: 0 <= j < n - 1 ==> prefix[j] == frames[j];
    }
    if n == 1 || !Present(frames[n - 2], l) {
      if n > 1 {
        assert !Present(prefix[|prefix| - 1], l);
        ReplayNotPresent(prefix, l);
      }
    } else {
      assert Present(prefix[|prefix| - 1], l);
      FirstSeenIsRunStart(prefix, l);
      ReplayPositive(prefix);
    }
  }

  /** A label absent from the last frame is not tracked afterwards. */
  lemma ReplayNotPresent(frames: seq<Frame>, l: string)
    requires |frames| > 0 && !Present(frames[|frames| - 1], l)
    ensures l !in Replay(frames)
  {
  }

  /** The status reported at the last frame is `Confirmed` exactly when the
      label has been present in every frame for strictly longer than the
      persistence duration. */
  lemma ConfirmedIffDwelledLongEnough(frames: seq<Frame>, p: Prediction)
    requires |frames| > 0 && PositiveClock(frames)
    requires p in frames[|frames| - 1].predictions && Survives(p, frames[|frames| - 1].threshold)
    ensures Present(frames[|frames| - 1], p.cls)
    ensures
      var last := frames[|frames| - 1];
      var start := frames[RunStart(frames, p.cls)].now;
      (ToDetection(p, Replay(frames)[p.cls], last.now).status == Confirmed
       <==> last.now - start > PersistenceDuration)
  {
    LabelsMembership(Surviving(frames[|frames| - 1].predictions, frames[|frames| - 1].threshold), p.cls);
    FirstSeenIsRunStart(frames, p.cls);
  }
}
