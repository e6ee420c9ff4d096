/**
 * The plank pose scorer: body-pose joints in, an optional scored `Pose` out.
 *
 * The recogniser's `atan2` and the radian-to-degree conversion are floating
 * point; they are abstracted as a function `deg` from `(dy, dx)` to the whole
 * number of degrees `Int(atan2(dy, dx) * 180 / pi)`. Everything after that
 * step is integer arithmetic and is modelled exactly.
 */
module PoseDetection {
  import opened Wrappers

  /** A point of the image plane. */
  datatype Point = Point(x: real, y: real)

  /** The joints the body-pose recogniser can report. */
  datatype JointName =
    | Nose | LeftEye | RightEye | LeftEar | RightEar
    | LeftShoulder | RightShoulder | Neck
    | LeftElbow | RightElbow | LeftWrist | RightWrist
    | LeftHip | RightHip | Root
    | LeftKnee | RightKnee | LeftAnkle | RightAnkle

  /** A recognised joint: where it is and how sure the recogniser is. */
  datatype RecognizedPoint = RecognizedPoint(location: Point, confidence: real)

  type BodyParts = map<JointName, RecognizedPoint>

  /** The abstracted `atan2` step: `(dy, dx)` to whole degrees. */
  type Atan2Degrees = (real, real) -> int

  /** The nine oriented limb segments the plank check looks at. */
  datatype PairKind =
    | RootNeck
    | RightAnkleKnee | RightKneeHip | RightWristElbow | RightElbowShoulder
    | LeftAnkleKnee | LeftKneeHip | LeftWristElbow | LeftElbowShoulder

  const AllKinds: set<PairKind> :=
    {RootNeck, RightAnkleKnee, RightKneeHip, RightWristElbow, RightElbowShoulder,
     LeftAnkleKnee, LeftKneeHip, LeftWristElbow, LeftElbowShoulder}

  /** Joints whose confidence does not exceed this are dropped. */
  const ConfidenceThreshold: real := 0.2

  /** The joint a segment starts at. */
  function StartJoint(k: PairKind): JointName
  {
    match k
    case RootNeck => Root
    case RightAnkleKnee => RightAnkle
    case RightKneeHip => RightKnee
    case RightWristElbow => RightWrist
    case RightElbowShoulder => RightElbow
    case LeftAnkleKnee => LeftAnkle
    case LeftKneeHip => LeftKnee
    case LeftWristElbow => LeftWrist
    case LeftElbowShoulder => LeftElbow
  }

  /** The joint a segment ends at. */
  function EndJoint(k: PairKind): JointName
  {
    match k
    case RootNeck => Neck
    case RightAnkleKnee => RightKnee
    case RightKneeHip => RightHip
    case RightWristElbow => RightElbow
    case RightElbowShoulder => RightShoulder
    case LeftAnkleKnee => LeftKnee
    case LeftKneeHip => LeftHip
    case LeftWristElbow => LeftElbow
    case LeftElbowShoulder => LeftShoulder
  }

  /** An oriented segment between two recognised joints. */
  datatype JointPair = JointPair(kind: PairKind, startPoint: Point, endPoint: Point, isCorrect: bool)
  {
    /** Direction of the segment from start to end, in whole degrees. */
    function Angle(deg: Atan2Degrees): int
    {
      deg(endPoint.y - startPoint.y, endPoint.x - startPoint.x)
    }

    /** The angle from the other end of the horizontal: in [0, 180] exactly when the angle is, and on the other side of 90. */
    function SupplementaryAngle(deg: Atan2Degrees): (s: int)
      ensures 0 <= s <= 180 <==> 0 <= Angle(deg) <= 180
      ensures s < 90 <==> Angle(deg) > 90
    {
      180 - Angle(deg)
    }

    /**
     * A segment pointing into the lower half-plane is not scored. The first
     * ensures is the definition stated as the valid range; the second says a
     * valid segment also reads in [0, 180] from the other end of the
     * horizontal.
     */
    predicate InvalidAngle(deg: Atan2Degrees): (invalid: bool)
      ensures !invalid <==> 0 <= Angle(deg) <= 180
      ensures !invalid <==> 0 <= SupplementaryAngle(deg) <= 180
    {
      Angle(deg) > 180 || Angle(deg) < 0
    }

    /**
     * The angle measured from whichever end of the horizontal the torso
     * faces: the two readings of one segment add up to 180, and on a valid
     * segment each lies in [0, 180].
     */
    function AngleFor(supplementary: bool, deg: Atan2Degrees): (a: int)
      ensures a + (if supplementary then Angle(deg) else SupplementaryAngle(deg)) == 180
      ensures !InvalidAngle(deg) ==> 0 <= a <= 180
    {
      if supplementary then SupplementaryAngle(deg) else Angle(deg)
    }
  }

  type JointPairs = map<PairKind, JointPair>

  /** A classified frame: its segments and a confidence in [0, 1]. */
  datatype Pose = Pose(jointPairs: JointPairs, confidence: real)
  {
    predicate IsCorrect()
    {
      confidence > 0.5
    }
  }

  /** The detector variants: the base class, whose `detect` finds nothing, and the plank detector. */
  datatype Posture = Generic | Plank

  predicate Recognized(parts: BodyParts, j: JointName)
  {
    j in parts && parts[j].confidence > ConfidenceThreshold
  }

  /** The pair of kind `k` built from the two endpoint joints. */
  function PairOf(parts: BodyParts, k: PairKind): JointPair
    requires StartJoint(k) in parts && EndJoint(k) in parts
  {
    JointPair(k, parts[StartJoint(k)].location, parts[EndJoint(k)].location, false)
  }

  /** The pairs among the kinds `ks` whose two endpoints are recognised. */
  function PreparedAmong(parts: BodyParts, ks: set<PairKind>): JointPairs
  {
    map k | k in ks && Recognized(parts, StartJoint(k)) && Recognized(parts, EndJoint(k)) :: PairOf(parts, k)
  }

  /** Reference definition of `prepare`: one unflagged pair per kind whose two endpoints are recognised. */
  function PreparedPairs(parts: BodyParts): JointPairs
  {
    PreparedAmong(parts, AllKinds)
  }

  /** `current` holds exactly the prepared pairs of the kinds in `done`. */
  predicate PreparedUpTo(parts: BodyParts, current: JointPairs, done: set<PairKind>)
  {
    forall k: PairKind {:trigger k in current} {:trigger k in done} ::
      && (k in current <==> k in done && Recognized(parts, StartJoint(k)) && Recognized(parts, EndJoint(k)))
      && (k in current ==> current[k] == PairOf(parts, k))
  }

  /**
   * One step of `prepare`: when both endpoints of `k` are among the
   * recognised joints, the pair of kind `k` is stored.
   */
  function WithPair(detectedParts: BodyParts, pairs: JointPairs, k: PairKind): JointPairs
  {
    if StartJoint(k) in detectedParts && EndJoint(k) in detectedParts
    then pairs[k := PairOf(detectedParts, k)]
    else pairs
  }

  /** Storing the pair of one more kind keeps `current` the prepared pairs of the kinds done. */
  lemma PrepareStep(parts: BodyParts, detectedParts: BodyParts, current: JointPairs, done: set<PairKind>, k: PairKind)
    requires detectedParts == map j | j in parts && parts[j].confidence > ConfidenceThreshold :: parts[j]
    requires PreparedUpTo(parts, current, done)
    ensures PreparedUpTo(parts, WithPair(detectedParts, current, k), done + {k})
  {
  }

  lemma PreparedUpToAll(parts: BodyParts, current: JointPairs, done: set<PairKind>)
    requires PreparedUpTo(parts, current, done)
    requires AllKinds <= done
    ensures current == PreparedPairs(parts)
  {
    assert current.Keys == PreparedPairs(parts).Keys;
  }

  // ---------------------------------------------------------------------------
  // The plank checks, stated per kind

  const MaxScore: nat := 18

  /** What a passing check adds to the score. */
  function Weight(k: PairKind): nat
  {
    match k
    case RootNeck => 4
    case LeftElbowShoulder | RightElbowShoulder => 2
    case LeftWristElbow | RightWristElbow => 3
    case LeftAnkleKnee | RightAnkleKnee | LeftKneeHip | RightKneeHip => 1
  }

  /** The pair is present and its angle is in [0, 180]. */
  predicate Usable(pairs: JointPairs, k: PairKind, deg: Atan2Degrees)
  {
    k in pairs && !pairs[k].InvalidAngle(deg)
  }

  /** The wrist check compares the wrist with the start point of the knee-hip pair, the knee. */
  predicate WristAboveKnee(pairs: JointPairs, wrist: PairKind, kneeHip: PairKind, deg: Atan2Degrees)
  {
    Usable(pairs, wrist, deg) && Usable(pairs, kneeHip, deg)
    && pairs[wrist].startPoint.y < pairs[kneeHip].startPoint.y
  }

  /**
   * The condition of the check on kind `k`. The torso check needs no validity
   * test of its own: the detector only scores a frame whose torso is valid.
   */
  predicate Passes(pairs: JointPairs, k: PairKind, supplementary: bool, deg: Atan2Degrees)
  {
    match k
    case RootNeck =>
      k in pairs && pairs[k].AngleFor(supplementary, deg) < 45
    case LeftElbowShoulder | RightElbowShoulder =>
      Usable(pairs, k, deg) && 70 < pairs[k].AngleFor(supplementary, deg) < 110
    case RightWristElbow => WristAboveKnee(pairs, RightWristElbow, RightKneeHip, deg)
    case LeftWristElbow => WristAboveKnee(pairs, LeftWristElbow, LeftKneeHip, deg)
    case LeftAnkleKnee | RightAnkleKnee | LeftKneeHip | RightKneeHip =>
      Usable(pairs, k, deg) && pairs[k].AngleFor(supplementary, deg) < 45
  }

  /** What the check on `k` contributes to the score. */
  function Contribution(pairs: JointPairs, k: PairKind, supplementary: bool, deg: Atan2Degrees): nat
  {
    if Passes(pairs, k, supplementary, deg) then Weight(k) else 0
  }

  /** The weight of `k` if its pair is present with its flag set, else 0. */
  function FlagWeight(pairs: JointPairs, k: PairKind): nat
  {
    if k in pairs && pairs[k].isCorrect then Weight(k) else 0
  }

  /** The sum of the weights of the flagged pairs. */
  function FlaggedScore(pairs: JointPairs): nat
  {
    FlagWeight(pairs, RootNeck)
    + FlagWeight(pairs, LeftElbowShoulder) + FlagWeight(pairs, RightElbowShoulder)
    + FlagWeight(pairs, RightWristElbow) + FlagWeight(pairs, LeftWristElbow)
    + FlagWeight(pairs, RightAnkleKnee) + FlagWeight(pairs, LeftAnkleKnee)
    + FlagWeight(pairs, RightKneeHip) + FlagWeight(pairs, LeftKneeHip)
  }

  /** `jointPairs[k]?.isCorrect = true`: sets the flag of `k`, if present. */
  function SetCorrect(pairs: JointPairs, k: PairKind): (r: JointPairs)
  {
    if k in pairs then pairs[k := pairs[k].(isCorrect := true)] else pairs
  }

  /** The check on `k`: sets the flag of `k` in `current` when the check passes on the prepared pairs. */
  function CheckStep(prepared: JointPairs, current: JointPairs, k: PairKind, supplementary: bool, deg: Atan2Degrees): JointPairs
  {
    if Passes(prepared, k, supplementary, deg) then SetCorrect(current, k) else current
  }

  /** The pairs after the nine checks, run in the detector's order, have set the flags of those that pass. */
  function Marked(p: JointPairs, supplementary: bool, deg: Atan2Degrees): JointPairs
  {
    var m1 := CheckStep(p, p, RootNeck, supplementary, deg);
    var m2 := CheckStep(p, m1, LeftElbowShoulder, supplementary, deg);
    var m3 := CheckStep(p, m2, RightElbowShoulder, supplementary, deg);
    var m4 := CheckStep(p, m3, RightWristElbow, supplementary, deg);
    var m5 := CheckStep(p, m4, LeftWristElbow, supplementary, deg);
    var m6 := CheckStep(p, m5, RightAnkleKnee, supplementary, deg);
    var m7 := CheckStep(p, m6, LeftAnkleKnee, supplementary, deg);
    var m8 := CheckStep(p, m7, RightKneeHip, supplementary, deg);
    CheckStep(p, m8, LeftKneeHip, supplementary, deg)
  }

  /** The score the nine checks add up to. */
  function Score(p: JointPairs, supplementary: bool, deg: Atan2Degrees): nat
  {
    Contribution(p, RootNeck, supplementary, deg)
    + Contribution(p, LeftElbowShoulder, supplementary, deg)
    + Contribution(p, RightElbowShoulder, supplementary, deg)
    + Contribution(p, RightWristElbow, supplementary, deg)
    + Contribution(p, LeftWristElbow, supplementary, deg)
    + Contribution(p, RightAnkleKnee, supplementary, deg)
    + Contribution(p, LeftAnkleKnee, supplementary, deg)
    + Contribution(p, RightKneeHip, supplementary, deg)
    + Contribution(p, LeftKneeHip, supplementary, deg)
  }

  /** The frame is scored only when the torso pair is present and valid. */
  predicate HasTorso(pairs: JointPairs, deg: Atan2Degrees)
  {
    Usable(pairs, RootNeck, deg)
  }

  /** The torso leans past the vertical: angles are then measured from the other side. */
  function Supplementary(pairs: JointPairs, deg: Atan2Degrees): bool
    requires RootNeck in pairs
  {
    pairs[RootNeck].Angle(deg) > 90
  }

  /** Reference definition of the plank detector's result. */
  function PlankDetection(parts: BodyParts, deg: Atan2Degrees): Option<Pose>
  {
    var pairs := PreparedPairs(parts);
    if !HasTorso(pairs, deg) then None
    else
      var supplementary := Supplementary(pairs, deg);
      Some(Pose(Marked(pairs, supplementary, deg),
                Score(pairs, supplementary, deg) as real / MaxScore as real))
  }

  /** Reference definition of the plank detector's `jointPairs` after a call of `detect`. */
  function PlankPairs(parts: BodyParts, deg: Atan2Degrees): JointPairs
  {
    var pairs := PreparedPairs(parts);
    if !HasTorso(pairs, deg) then pairs
    else Marked(pairs, Supplementary(pairs, deg), deg)
  }

  /** What `detect` of a detector of the given variant returns. */
  function Detection(posture: Posture, parts: BodyParts, deg: Atan2Degrees): Option<Pose>
  {
    match posture
    case Generic => None
    case Plank => PlankDetection(parts, deg)
  }

  // ---------------------------------------------------------------------------
  // Lemmas the detector's proof uses

  /** Every check looks only at kinds, points and angles, never at the flags. */
  predicate SameSegments(p: JointPairs, q: JointPairs)
  {
    p.Keys == q.Keys
    && forall k | k in p :: q[k].kind == p[k].kind && q[k].startPoint == p[k].startPoint && q[k].endPoint == p[k].endPoint
  }

  lemma PassesIgnoresFlags(p: JointPairs, q: JointPairs, k: PairKind, supplementary: bool, deg: Atan2Degrees)
    requires SameSegments(p, q)
    ensures Passes(q, k, supplementary, deg) == Passes(p, k, supplementary, deg)
  {
  }

  lemma SetCorrectSegments(p: JointPairs, m: JointPairs, k: PairKind)
    requires SameSegments(p, m)
    ensures SameSegments(p, SetCorrect(m, k))
  {
  }

  /**
   * A check that ran against `before`, pairs with the prepared segments, and
   * gained `points`: it decided as it would have on the prepared pairs.
   */
  lemma Ran(prepared: JointPairs, before: JointPairs, after: JointPairs, k: PairKind, points: nat,
            supplementary: bool, deg: Atan2Degrees)
    requires SameSegments(prepared, before)
    requires points == Contribution(before, k, supplementary, deg)
    requires after == if points > 0 then SetCorrect(before, k) else before
    ensures SameSegments(prepared, after)
    ensures points == Contribution(prepared, k, supplementary, deg)
    ensures after == CheckStep(prepared, before, k, supplementary, deg)
  {
    PassesIgnoresFlags(prepared, before, k, supplementary, deg);
    SetCorrectSegments(prepared, before, k);
  }

  /** Nine checks run one after another, each on the result of the last, leave the pairs `Marked` describes. */
  lemma MarkedChain(p: JointPairs, m1: JointPairs, m2: JointPairs, m3: JointPairs, m4: JointPairs,
                    m5: JointPairs, m6: JointPairs, m7: JointPairs, m8: JointPairs, m9: JointPairs,
                    supplementary: bool, deg: Atan2Degrees)
    requires m1 == CheckStep(p, p, RootNeck, supplementary, deg)
    requires m2 == CheckStep(p, m1, LeftElbowShoulder, supplementary, deg)
    requires m3 == CheckStep(p, m2, RightElbowShoulder, supplementary, deg)
    requires m4 == CheckStep(p, m3, RightWristElbow, supplementary, deg)
    requires m5 == CheckStep(p, m4, LeftWristElbow, supplementary, deg)
    requires m6 == CheckStep(p, m5, RightAnkleKnee, supplementary, deg)
    requires m7 == CheckStep(p, m6, LeftAnkleKnee, supplementary, deg)
    requires m8 == CheckStep(p, m7, RightKneeHip, supplementary, deg)
    requires m9 == CheckStep(p, m8, LeftKneeHip, supplementary, deg)
    ensures m9 == Marked(p, supplementary, deg)
  {
  }

  /** The points nine checks gain, added up, are the `Score` of the pairs. */
  lemma ScoreChain(p: JointPairs, c1: nat, c2: nat, c3: nat, c4: nat, c5: nat, c6: nat, c7: nat, c8: nat, c9: nat,
                   total: nat, supplementary: bool, deg: Atan2Degrees)
    requires c1 == Contribution(p, RootNeck, supplementary, deg)
    requires c2 == Contribution(p, LeftElbowShoulder, supplementary, deg)
    requires c3 == Contribution(p, RightElbowShoulder, supplementary, deg)
    requires c4 == Contribution(p, RightWristElbow, supplementary, deg)
    requires c5 == Contribution(p, LeftWristElbow, supplementary, deg)
    requires c6 == Contribution(p, RightAnkleKnee, supplementary, deg)
    requires c7 == Contribution(p, LeftAnkleKnee, supplementary, deg)
    requires c8 == Contribution(p, RightKneeHip, supplementary, deg)
    requires c9 == Contribution(p, LeftKneeHip, supplementary, deg)
    requires total == c1 + c2 + c3 + c4 + c5 + c6 + c7 + c8 + c9
    ensures total == Score(p, supplementary, deg)
  {
  }

  // ---------------------------------------------------------------------------
  // The detectors

  /**
   * A pose detector. `posture` selects which of the source's two classes this
   * object is: the base class, whose `detect` always finds nothing, or the
   * plank detector that overrides it.
   */
  class PoseDetector {
    const posture: Posture
    var jointPairs: JointPairs

    constructor (posture: Posture)
      ensures this.posture == posture && jointPairs == map[]
    {
      this.posture := posture;
      jointPairs := map[];
    }

    /**
     * Keeps the joints with confidence above 0.2 and builds, kind by kind,
     * each pair both of whose endpoints remain.
     */
    method Prepare(bodyParts: BodyParts) returns (detectedPairs: JointPairs)
      ensures detectedPairs == PreparedPairs(bodyParts)
    {
      var detectedParts := map j | j in bodyParts && bodyParts[j].confidence > ConfidenceThreshold :: bodyParts[j];
      detectedPairs := map[];
      ghost var done: set<PairKind> := {};
      PrepareStep(bodyParts, detectedParts, detectedPairs, done, RightAnkleKnee);
      detectedPairs := WithPair(detectedParts, detectedPairs, RightAnkleKnee);
      done := done + {RightAnkleKnee};
      PrepareStep(bodyParts, detectedParts, detectedPairs, done, RightKneeHip);
      detectedPairs := WithPair(detectedParts, detectedPairs, RightKneeHip);
      done := done + {RightKneeHip};
      PrepareStep(bodyParts, detectedParts, detectedPairs, done, RightWristElbow);
      detectedPairs := WithPair(detectedParts, detectedPairs, RightWristElbow);
      done := done + {RightWristElbow};
      PrepareStep(bodyParts, detectedParts, detectedPairs, done, RightElbowShoulder);
      detectedPairs := WithPair(detectedParts, detectedPairs, RightElbowShoulder);
      done := done + {RightElbowShoulder};
      PrepareStep(bodyParts, detectedParts, detectedPairs, done, LeftAnkleKnee);
      detectedPairs := WithPair(detectedParts, detectedPairs, LeftAnkleKnee);
      done := done + {LeftAnkleKnee};
      PrepareStep(bodyParts, detectedParts, detectedPairs, done, LeftKneeHip);
      detectedPairs := WithPair(detectedParts, detectedPairs, LeftKneeHip);
      done := done + {LeftKneeHip};
      PrepareStep(bodyParts, detectedParts, detectedPairs, done, LeftWristElbow);
      detectedPairs := WithPair(detectedParts, detectedPairs, LeftWristElbow);
      done := done + {LeftWristElbow};
      PrepareStep(bodyParts, detectedParts, detectedPairs, done, LeftElbowShoulder);
      detectedPairs := WithPair(detectedParts, detectedPairs, LeftElbowShoulder);
      done := done + {LeftElbowShoulder};
      PrepareStep(bodyParts, detectedParts, detectedPairs, done, RootNeck);
      detectedPairs := WithPair(detectedParts, detectedPairs, RootNeck);
      done := done + {RootNeck};
      PreparedUpToAll(bodyParts, detectedPairs, done);
    }

    /** `detect`: dispatches to the variant this detector is. The base variant leaves `jointPairs` alone. */
    method Detect(bodyParts: BodyParts, deg: Atan2Degrees) returns (pose: Option<Pose>)
      modifies this
      ensures pose == Detection(posture, bodyParts, deg)
      ensures jointPairs == if posture == Generic then old(jointPairs) else PlankPairs(bodyParts, deg)
    {
      match posture
      case Generic =>
        pose := None;
      case Plank =>
        pose := DetectPlank(bodyParts, deg);
    }

    /** The plank detector's `detect`: prepares the pairs, then runs the nine weighted checks. */
    method DetectPlank(bodyParts: BodyParts, deg: Atan2Degrees) returns (pose: Option<Pose>)
      modifies this
      ensures pose == PlankDetection(bodyParts, deg)
      ensures jointPairs == PlankPairs(bodyParts, deg)
    {
      jointPairs := Prepare(bodyParts);
      if RootNeck !in jointPairs || jointPairs[RootNeck].InvalidAngle(deg) {
        return None;
      }
      var rootNeck := jointPairs[RootNeck];
      var supplementary := rootNeck.Angle(deg) > 90;
      var poseConfidenceScore := RunChecks(rootNeck, supplementary, deg);
      pose := Some(Pose(jointPairs, poseConfidenceScore as real / MaxScore as real));
    }

    /** The nine weighted checks, in the detector's order: each passing check flags its pair and adds its weight. */
    method RunChecks(rootNeck: JointPair, supplementary: bool, deg: Atan2Degrees) returns (poseConfidenceScore: nat)
      requires RootNeck in jointPairs && jointPairs[RootNeck] == rootNeck
      modifies this
      ensures jointPairs == Marked(old(jointPairs), supplementary, deg)
      ensures poseConfidenceScore == Score(old(jointPairs), supplementary, deg)
    {
      ghost var prepared := jointPairs;
      var points;
      // the body
      points := CheckBody(prepared, rootNeck, supplementary, deg);
      ghost var c1 := points;
      poseConfidenceScore := points;
      ghost var m1 := jointPairs;
      // the arms
      points := CheckArm(prepared, LeftElbowShoulder, supplementary, deg);
      ghost var c2 := points;
      poseConfidenceScore := poseConfidenceScore + points;
      ghost var m2 := jointPairs;
      points := CheckArm(prepared, RightElbowShoulder, supplementary, deg);
      ghost var c3 := points;
      poseConfidenceScore := poseConfidenceScore + points;
      ghost var m3 := jointPairs;
      points := CheckWrist(prepared, RightWristElbow, RightKneeHip, supplementary, deg);
      ghost var c4 := points;
      poseConfidenceScore := poseConfidenceScore + points;
      ghost var m4 := jointPairs;
      points := CheckWrist(prepared, LeftWristElbow, LeftKneeHip, supplementary, deg);
      ghost var c5 := points;
      poseConfidenceScore := poseConfidenceScore + points;
      ghost var m5 := jointPairs;
      // the legs
      points := CheckLeg(prepared, RightAnkleKnee, supplementary, deg);
      ghost var c6 := points;
      poseConfidenceScore := poseConfidenceScore + points;
      ghost var m6 := jointPairs;
      points := CheckLeg(prepared, LeftAnkleKnee, supplementary, deg);
      ghost var c7 := points;
      poseConfidenceScore := poseConfidenceScore + points;
      ghost var m7 := jointPairs;
      points := CheckLeg(prepared, RightKneeHip, supplementary, deg);
      ghost var c8 := points;
      poseConfidenceScore := poseConfidenceScore + points;
      ghost var m8 := jointPairs;
      points := CheckLeg(prepared, LeftKneeHip, supplementary, deg);
      ghost var c9 := points;
      poseConfidenceScore := poseConfidenceScore + points;
      MarkedChain(prepared, m1, m2, m3, m4, m5, m6, m7, m8, jointPairs, supplementary, deg);
      ScoreChain(prepared, c1, c2, c3, c4, c5, c6, c7, c8, c9, poseConfidenceScore, supplementary, deg);
    }

    /** The torso check, on the root-neck pair the guard of `detect` found valid. */
    method CheckBody(ghost prepared: JointPairs, rootNeck: JointPair, supplementary: bool, deg: Atan2Degrees) returns (points: nat)
      requires RootNeck in jointPairs && jointPairs[RootNeck] == rootNeck
      requires SameSegments(prepared, jointPairs)
      modifies this
      ensures points == Contribution(prepared, RootNeck, supplementary, deg)
      ensures jointPairs == CheckStep(prepared, old(jointPairs), RootNeck, supplementary, deg)
      ensures SameSegments(prepared, jointPairs)
    {
      ghost var before := jointPairs;
      points := 0;
      if rootNeck.AngleFor(supplementary, deg) < 45 {
        jointPairs := SetCorrect(jointPairs, RootNeck);
        points := 4;
      }
      Ran(prepared, before, jointPairs, RootNeck, points, supplementary, deg);
    }

    /** An elbow-shoulder check: the pair is valid and its angle lies strictly between 70 and 110. */
    method CheckArm(ghost prepared: JointPairs, k: PairKind, supplementary: bool, deg: Atan2Degrees) returns (points: nat)
      requires k == LeftElbowShoulder || k == RightElbowShoulder
      requires SameSegments(prepared, jointPairs)
      modifies this
      ensures points == Contribution(prepared, k, supplementary, deg)
      ensures jointPairs == CheckStep(prepared, old(jointPairs), k, supplementary, deg)
      ensures SameSegments(prepared, jointPairs)
    {
      ghost var before := jointPairs;
      points := 0;
      if k in jointPairs && !jointPairs[k].InvalidAngle(deg)
         && jointPairs[k].AngleFor(supplementary, deg) > 70
         && jointPairs[k].AngleFor(supplementary, deg) < 110 {
        jointPairs := SetCorrect(jointPairs, k);
        points := 2;
      }
      Ran(prepared, before, jointPairs, k, points, supplementary, deg);
    }

    /** A wrist check: the wrist-elbow and knee-hip pairs are valid and the wrist has a smaller y than the knee. */
    method CheckWrist(ghost prepared: JointPairs, wrist: PairKind, kneeHip: PairKind, supplementary: bool, deg: Atan2Degrees) returns (points: nat)
      requires (wrist, kneeHip) == (RightWristElbow, RightKneeHip) || (wrist, kneeHip) == (LeftWristElbow, LeftKneeHip)
      requires SameSegments(prepared, jointPairs)
      modifies this
      ensures points == Contribution(prepared, wrist, supplementary, deg)
      ensures jointPairs == CheckStep(prepared, old(jointPairs), wrist, supplementary, deg)
      ensures SameSegments(prepared, jointPairs)
    {
      ghost var before := jointPairs;
      points := 0;
      if wrist in jointPairs && !jointPairs[wrist].InvalidAngle(deg)
         && kneeHip in jointPairs && !jointPairs[kneeHip].InvalidAngle(deg)
         && jointPairs[wrist].startPoint.y < jointPairs[kneeHip].startPoint.y {
        jointPairs := SetCorrect(jointPairs, wrist);
        points := 3;
      }
      Ran(prepared, before, jointPairs, wrist, points, supplementary, deg);
    }

    /** An ankle-knee or knee-hip check: the pair is valid and its angle is under 45. */
    method CheckLeg(ghost prepared: JointPairs, k: PairKind, supplementary: bool, deg: Atan2Degrees) returns (points: nat)
      requires k == RightAnkleKnee || k == LeftAnkleKnee || k == RightKneeHip || k == LeftKneeHip
      requires SameSegments(prepared, jointPairs)
      modifies this
      ensures points == Contribution(prepared, k, supplementary, deg)
      ensures jointPairs == CheckStep(prepared, old(jointPairs), k, supplementary, deg)
      ensures SameSegments(prepared, jointPairs)
    {
      ghost var before := jointPairs;
      points := 0;
      if k in jointPairs && !jointPairs[k].InvalidAngle(deg)
         && jointPairs[k].AngleFor(supplementary, deg) < 45 {
        jointPairs := SetCorrect(jointPairs, k);
        points := 1;
      }
      Ran(prepared, before, jointPairs, k, points, supplementary, deg);
    }
  }
}
