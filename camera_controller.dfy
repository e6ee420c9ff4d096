/**
 * The detection and hold state machine of the camera screen.
 *
 * The screen keeps three fields: the current detection state, the date of
 * the last correct detection, and the accumulated hold duration. Frames from
 * the camera call `setState`; a repeating one-second timer calls
 * `handleState`; the duration button can reset the duration; the done button
 * either dismisses the screen or presents the alert offering to save a record.
 *
 * Dates are seconds on a real-valued clock and the current date `now` is a
 * parameter of every operation that reads the clock. The two alert sounds are
 * returned as cues instead of being played.
 */
module CameraController {
  import opened Wrappers
  import opened PoseDetection

  /** `.none`, or `.detected(pose)`. */
  datatype DetectionState = NoDetection | Detected(pose: Pose)

  /** A tick at least this many seconds after the last correct pose ends the detection (with one-second ticks, the hold survives a gap of 2 to 3 seconds). */
  const DetectionThreshold: real := 2.0

  /** The timer period, and what each tick adds to the duration. */
  const TimerInterval: real := 1.0

  /** The two alert sounds: entering and leaving the detected state. */
  datatype Cue = EntrySound | ExitSound

  /** The system sound each cue plays: 1117 on entry, 1114 on exit, so the two cues never sound alike. */
  function SoundId(cue: Cue): (id: nat)
    ensures id == 1117 <==> cue == EntrySound
    ensures id == 1114 <==> cue == ExitSound
  {
    match cue
    case EntrySound => 1117
    case ExitSound => 1114
  }

  /** The three state fields of the screen, as a value. */
  datatype Snapshot = Snapshot(state: DetectionState, lastDetectionDate: Option<real>, duration: real)

  /** The fields when the screen opens. */
  const Initial: Snapshot := Snapshot(NoDetection, None, 0.0)

  /** The fields after an operation, and the sound it plays, if any. */
  datatype Step = Step(after: Snapshot, cue: Option<Cue>)

  /** A detected state comes with the date of its last correct detection, and only a detected state has one. */
  predicate Consistent(s: Snapshot)
  {
    s.state.Detected? <==> s.lastDetectionDate.Some?
  }

  /**
   * Reference definition of `setState(to:)`:
   *  - from none, a correct pose enters the detected state, dated now, with the entry sound;
   *    an incorrect one is ignored entirely;
   *  - from detected, none leaves it, clearing the date, with the exit sound;
   *    a correct pose refreshes the date; an incorrect one replaces the pose and keeps the date;
   *  - none to none changes nothing.
   * The duration is never touched.
   */
  function SetStateStep(s: Snapshot, newState: DetectionState, now: real): Step
  {
    match (s.state, newState)
    case (NoDetection, Detected(pose)) =>
      if !pose.IsCorrect() then Step(s, None)
      else Step(s.(state := newState, lastDetectionDate := Some(now)), Some(EntrySound))
    case (Detected(_), NoDetection) =>
      Step(s.(state := newState, lastDetectionDate := None), Some(ExitSound))
    case (Detected(_), Detected(newPose)) =>
      if newPose.IsCorrect() then Step(s.(state := newState, lastDetectionDate := Some(now)), None)
      else Step(s.(state := newState), None)
    case (NoDetection, NoDetection) =>
      Step(s, None)
  }

  /**
   * Reference definition of `handleState`, one timer tick: while detected and
   * within the threshold of the last correct detection the duration grows by
   * one interval; past the threshold the state drops to none.
   */
  function TickStep(s: Snapshot, now: real): Step
  {
    match s.state
    case NoDetection => Step(s, None)
    case Detected(_) =>
      match s.lastDetectionDate
      case None => Step(s, None)
      case Some(last) =>
        if now - last < DetectionThreshold then Step(s.(duration := s.duration + TimerInterval), None)
        else SetStateStep(s, NoDetection, now)
  }

  /** Reference definition of the reset action: the duration goes back to zero. */
  function ResetStep(s: Snapshot): Snapshot
  {
    s.(duration := 0.0)
  }

  /**
   * What the done button leads to: closing the screen, or presenting the save
   * alert. `duration` is the duration at the press; the alert's text is fixed
   * and does not display it, and the saved record does not use it (the record
   * reads the duration again when Save is tapped).
   */
  datatype DoneAction = Dismiss | OfferSave(duration: real)

  /** The save guard: the alert is presented exactly when some duration was recorded, tagged with the duration at the press. */
  function SaveOffer(duration: real): (r: DoneAction)
    ensures r.OfferSave? <==> duration > 0.0
    ensures r.OfferSave? ==> r.duration == duration
  {
    if duration > 0.0 then OfferSave(duration) else Dismiss
  }

  /** The poses the detectors report for a frame, in detector order, skipping those that report none (`compactMap`). */
  function Found(detectors: seq<PoseDetector>, parts: BodyParts, deg: Atan2Degrees): (r: seq<Pose>)
    ensures |r| <= |detectors|
  {
    if detectors == [] then []
    else
      var last := detectors[|detectors| - 1];
      Found(detectors[..|detectors| - 1], parts, deg)
      + match Detection(last.posture, parts, deg) { case Some(p) => [p] case None => [] }
  }

  /**
   * The first element of the poses sorted by decreasing confidence: a pose of
   * maximal confidence, the earliest one among equals, or none when there is
   * no pose.
   */
  function Best(poses: seq<Pose>): (r: Option<Pose>)
    ensures r.None? <==> poses == []
    ensures r.Some? ==> r.value in poses
    ensures r.Some? ==> forall p :: p in poses ==> p.confidence <= r.value.confidence
  {
    if poses == [] then None
    else
      match Best(poses[1..])
      case None => Some(poses[0])
      case Some(b) => if b.confidence > poses[0].confidence then Some(b) else Some(poses[0])
  }

  /** One more detector adds its own pose, if any, at the end. */
  lemma FoundGrows(detectors: seq<PoseDetector>, i: nat, parts: BodyParts, deg: Atan2Degrees)
    requires i < |detectors|
    ensures Found(detectors[..i + 1], parts, deg)
            == Found(detectors[..i], parts, deg) + match Detection(detectors[i].posture, parts, deg) { case Some(p) => [p] case None => [] }
  {
    assert detectors[..i + 1][..i] == detectors[..i];
  }

  /**
   * Runs every detector on the frame and keeps the poses they report, in
   * detector order. Each plank detector is left holding the frame's plank
   * pairs; a base detector keeps its own.
   */
  method RunDetectors(detectors: seq<PoseDetector>, bodyParts: BodyParts, deg: Atan2Degrees) returns (found: seq<Pose>)
    modifies detectors
    ensures found == Found(detectors, bodyParts, deg)
    ensures forall j | 0 <= j < |detectors| && detectors[j].posture == Generic :: detectors[j].jointPairs == old(detectors[j].jointPairs)
    ensures forall j | 0 <= j < |detectors| && detectors[j].posture == Plank :: detectors[j].jointPairs == PlankPairs(bodyParts, deg)
  {
    found := [];
    ghost var plankPairs := PlankPairs(bodyParts, deg);
    var i := 0;
    while i < |detectors|
      invariant 0 <= i <= |detectors|
      invariant found == Found(detectors[..i], bodyParts, deg)
      invariant forall j | 0 <= j < |detectors| && detectors[j].posture == Generic :: detectors[j].jointPairs == old(detectors[j].jointPairs)
      invariant forall j | 0 <= j < i && detectors[j].posture == Plank :: detectors[j].jointPairs == plankPairs
    {
      var pose := detectors[i].Detect(bodyParts, deg);
      FoundGrows(detectors, i, bodyParts, deg);
      if pose.Some? {
        found := found + [pose.value];
      }
      i := i + 1;
    }
    assert detectors[..i] == detectors;
  }

  /** The state a frame asks for: the best pose found, or none. */
  function FrameState(detectors: seq<PoseDetector>, parts: BodyParts, deg: Atan2Degrees): DetectionState
  {
    match Best(Found(detectors, parts, deg))
    case Some(pose) => Detected(pose)
    case None => NoDetection
  }

  /**
   * Reference definition of `handleBodyPose`: a frame without a body
   * observation changes nothing; otherwise the state is set to what the
   * detectors found.
   */
  function FrameStep(s: Snapshot, observation: Option<BodyParts>, detectors: seq<PoseDetector>,
                     deg: Atan2Degrees, now: real): Step
  {
    match observation
    case None => Step(s, None)
    case Some(parts) => SetStateStep(s, FrameState(detectors, parts, deg), now)
  }

  /** The camera screen, reduced to its detection state. */
  class CameraViewController {
    const poseDetectors: seq<PoseDetector>
    var detectionState: DetectionState
    var detectionDuration: real
    var lastDetectionDate: Option<real>

    /** The three state fields as a value. */
    function Tracked(): Snapshot
      reads this
    {
      Snapshot(detectionState, lastDetectionDate, detectionDuration)
    }

    predicate Valid()
      reads this
    {
      Consistent(Tracked())
    }

    /** The screen opens with one plank detector, no detection, no date and zero duration. */
    constructor ()
      ensures Valid() && Tracked() == Initial
      ensures |poseDetectors| == 1 && poseDetectors[0].posture == Plank && fresh(poseDetectors[0])
    {
      var plank := new PoseDetector(Plank);
      poseDetectors := [plank];
      detectionState := NoDetection;
      detectionDuration := 0.0;
      lastDetectionDate := None;
    }

    /** `setState(to:)`. */
    method SetState(newState: DetectionState, now: real) returns (cue: Option<Cue>)
      requires Valid()
      modifies this
      ensures Valid()
      ensures Step(Tracked(), cue) == SetStateStep(old(Tracked()), newState, now)
    {
      cue := None;
      match (detectionState, newState) {
      case (NoDetection, Detected(pose)) =>
        if !pose.IsCorrect() {
          return;
        }
        lastDetectionDate := Some(now);
        cue := Some(EntrySound);
      case (Detected(_), NoDetection) =>
        lastDetectionDate := None;
        cue := Some(ExitSound);
      case (Detected(_), Detected(newPose)) =>
        if newPose.IsCorrect() {
          lastDetectionDate := Some(now);
        }
      case (NoDetection, NoDetection) =>
      }
      detectionState := newState;
    }

    /** `handleState`, run by the timer. */
    method HandleState(now: real) returns (cue: Option<Cue>)
      requires Valid()
      modifies this
      ensures Valid()
      ensures Step(Tracked(), cue) == TickStep(old(Tracked()), now)
    {
      cue := None;
      match detectionState
      case NoDetection =>
      case Detected(_) =>
        if lastDetectionDate.Some? {
          if now - lastDetectionDate.value < DetectionThreshold {
            detectionDuration := detectionDuration + TimerInterval;
          } else {
            cue := SetState(NoDetection, now);
          }
        }
    }

    /** The reset action of the duration button. */
    method ResetDuration()
      requires Valid()
      modifies this
      ensures Valid()
      ensures Tracked() == ResetStep(old(Tracked()))
    {
      detectionDuration := 0.0;
    }

    /** `doneButtonDidPress`: the save guard. */
    method DoneButtonDidPress() returns (action: DoneAction)
      ensures action.OfferSave? <==> detectionDuration > 0.0
      ensures action == SaveOffer(detectionDuration)
    {
      if !(detectionDuration > 0.0) {
        return Dismiss;
      }
      action := OfferSave(detectionDuration);
    }

    /**
     * `handleBodyPose` from the recognised joints on: every detector runs on
     * the frame, and the state is set to the best pose found, or to none.
     */
    method HandleBodyPose(observation: Option<BodyParts>, deg: Atan2Degrees, now: real) returns (cue: Option<Cue>)
      requires Valid()
      modifies this, poseDetectors
      ensures Valid()
      ensures Step(Tracked(), cue) == FrameStep(old(Tracked()), observation, poseDetectors, deg, now)
      ensures forall j | 0 <= j < |poseDetectors| && (observation.None? || poseDetectors[j].posture == Generic) ::
        poseDetectors[j].jointPairs == old(poseDetectors[j].jointPairs)
      ensures observation.Some? ==>
        forall j | 0 <= j < |poseDetectors| && poseDetectors[j].posture == Plank ::
          poseDetectors[j].jointPairs == PlankPairs(observation.value, deg)
    {
      if observation.None? {
        return None;
      }
      var found := RunDetectors(poseDetectors, observation.value, deg);
      match Best(found)
      case Some(detectedPose) =>
        cue := SetState(Detected(detectedPose), now);
      case None =>
        cue := SetState(NoDetection, now);
    }
  }
}
