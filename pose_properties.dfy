/**
 * What the plank scorer promises: which pairs `prepare` builds, when `detect`
 * gives up, how the nine checks set flags and add up to the score, and what
 * the confidence then means.
 */
module PoseProperties {
  import opened Wrappers
  import opened PoseDetection

  // ---------------------------------------------------------------------------
  // prepare

  /** `prepare` holds the pair of kind `k` exactly when both its endpoint joints are recognised; the pair joins them, unflagged. */
  lemma {:induction false} PreparedMembership(parts: BodyParts, k: PairKind)
    ensures k in PreparedPairs(parts) <==> Recognized(parts, StartJoint(k)) && Recognized(parts, EndJoint(k))
    ensures k in PreparedPairs(parts) ==>
      PreparedPairs(parts)[k] == JointPair(k, parts[StartJoint(k)].location, parts[EndJoint(k)].location, false)
  {
    assert k in AllKinds;
  }

  /** A joint at or below the confidence threshold removes every pair it is an endpoint of. */
  lemma WeakJointDropsPairs(parts: BodyParts, j: JointName, k: PairKind)
    requires j in parts && parts[j].confidence <= ConfidenceThreshold
    requires StartJoint(k) == j || EndJoint(k) == j
    ensures k !in PreparedPairs(parts)
  {
    PreparedMembership(parts, k);
  }

  /** Every prepared pair is stored under its own kind and carries no flag. */
  predicate Unflagged(p: JointPairs)
  {
    forall k | k in p :: p[k].kind == k && !p[k].isCorrect
  }

  lemma PreparedUnflagged(parts: BodyParts)
    ensures Unflagged(PreparedPairs(parts))
  {
    forall k | k in PreparedPairs(parts)
      ensures PreparedPairs(parts)[k].kind == k && !PreparedPairs(parts)[k].isCorrect
    {
      PreparedMembership(parts, k);
    }
  }

  // ---------------------------------------------------------------------------
  // angles

  /** The angle depends only on the offset from the start to the end point, not on where the segment lies. */
  lemma AngleDependsOnOffset(a: JointPair, b: JointPair, deg: Atan2Degrees)
    requires b.endPoint.x - b.startPoint.x == a.endPoint.x - a.startPoint.x
    requires b.endPoint.y - b.startPoint.y == a.endPoint.y - a.startPoint.y
    ensures a.Angle(deg) == b.Angle(deg)
    ensures a.InvalidAngle(deg) == b.InvalidAngle(deg)
  {
  }

  /** `angle(true)` is the supplementary angle and `angle(false)` the angle itself. */
  lemma AngleForCases(pair: JointPair, deg: Atan2Degrees)
    ensures pair.AngleFor(true, deg) == 180 - pair.Angle(deg)
    ensures pair.AngleFor(false, deg) == pair.Angle(deg)
  {
  }

  /** With a valid torso and the orientation it chooses, the torso value compared against 45 lies in [0, 90]. */
  lemma TorsoValueRange(rootNeck: JointPair, deg: Atan2Degrees)
    requires !rootNeck.InvalidAngle(deg)
    ensures 0 <= rootNeck.AngleFor(rootNeck.Angle(deg) > 90, deg) <= 90
  {
  }

  // ---------------------------------------------------------------------------
  // detect gives up

  /** `detect` finds nothing exactly when the prepared torso pair is absent or points outside [0, 180]. */
  lemma DetectionNoneIff(parts: BodyParts, deg: Atan2Degrees)
    ensures PlankDetection(parts, deg).None? <==>
      RootNeck !in PreparedPairs(parts) || PreparedPairs(parts)[RootNeck].InvalidAngle(deg)
  {
  }

  /** The same, in terms of the recognised joints: both root and neck above the threshold, and neck above root in angle. */
  lemma DetectionNoneIffJoints(parts: BodyParts, deg: Atan2Degrees)
    ensures PlankDetection(parts, deg).None? <==>
      || !Recognized(parts, Root) || !Recognized(parts, Neck)
      || (var a := deg(parts[Neck].location.y - parts[Root].location.y,
                       parts[Neck].location.x - parts[Root].location.x);
          a > 180 || a < 0)
  {
    PreparedMembership(parts, RootNeck);
  }

  /** No joints, no pose. */
  lemma NoJointsNoPose(deg: Atan2Degrees)
    ensures PlankDetection(map[], deg) == None
  {
    PreparedMembership(map[], RootNeck);
  }

  /** The base detector finds nothing, whatever the joints. */
  lemma GenericFindsNothing(parts: BodyParts, deg: Atan2Degrees)
    ensures Detection(Generic, parts, deg) == None
  {
  }

  // ---------------------------------------------------------------------------
  // one check at a time

  /** The pair of kind `k` in `m`: its segment as prepared, its flag set when `done` and the check passes. */
  predicate Settled(p: JointPairs, m: JointPairs, k: PairKind, done: bool, supplementary: bool, deg: Atan2Degrees)
  {
    && (k in m <==> k in p)
    && (k in m ==> m[k] == p[k].(isCorrect := done && Passes(p, k, supplementary, deg)))
  }

  /** A check on any kind `j` keeps the pair of kind `k` settled, and settles it when `j` is `k`. */
  lemma StepSettles(p: JointPairs, m: JointPairs, j: PairKind, k: PairKind, done: bool,
                    supplementary: bool, deg: Atan2Degrees)
    requires Unflagged(p)
    requires Settled(p, m, k, done, supplementary, deg)
    ensures Settled(p, CheckStep(p, m, j, supplementary, deg), k, done || j == k, supplementary, deg)
  {
  }

  /**
   * After the nine checks each pair keeps its segment, and its flag is set
   * exactly when its own check passes. None of the checks is skipped because
   * another pair is absent or invalid.
   */
  lemma {:induction false} MarkedFlags(p: JointPairs, k: PairKind, supplementary: bool, deg: Atan2Degrees)
    requires Unflagged(p)
    ensures k in Marked(p, supplementary, deg) <==> k in p
    ensures k in p ==> Marked(p, supplementary, deg)[k] == p[k].(isCorrect := Passes(p, k, supplementary, deg))
  {
    var m1 := CheckStep(p, p, RootNeck, supplementary, deg);
    var m2 := CheckStep(p, m1, LeftElbowShoulder, supplementary, deg);
    var m3 := CheckStep(p, m2, RightElbowShoulder, supplementary, deg);
    var m4 := CheckStep(p, m3, RightWristElbow, supplementary, deg);
    var m5 := CheckStep(p, m4, LeftWristElbow, supplementary, deg);
    var m6 := CheckStep(p, m5, RightAnkleKnee, supplementary, deg);
    var m7 := CheckStep(p, m6, LeftAnkleKnee, supplementary, deg);
    var m8 := CheckStep(p, m7, RightKneeHip, supplementary, deg);
    var m9 := CheckStep(p, m8, LeftKneeHip, supplementary, deg);
    var b0 := false;
    var b1 := b0 || RootNeck == k;
    var b2 := b1 || LeftElbowShoulder == k;
    var b3 := b2 || RightElbowShoulder == k;
    var b4 := b3 || RightWristElbow == k;
    var b5 := b4 || LeftWristElbow == k;
    var b6 := b5 || RightAnkleKnee == k;
    var b7 := b6 || LeftAnkleKnee == k;
    var b8 := b7 || RightKneeHip == k;
    var b9 := b8 || LeftKneeHip == k;
    assert Settled(p, p, k, b0, supplementary, deg);
    StepSettles(p, p, RootNeck, k, b0, supplementary, deg);
    StepSettles(p, m1, LeftElbowShoulder, k, b1, supplementary, deg);
    StepSettles(p, m2, RightElbowShoulder, k, b2, supplementary, deg);
    StepSettles(p, m3, RightWristElbow, k, b3, supplementary, deg);
    StepSettles(p, m4, LeftWristElbow, k, b4, supplementary, deg);
    StepSettles(p, m5, RightAnkleKnee, k, b5, supplementary, deg);
    StepSettles(p, m6, LeftAnkleKnee, k, b6, supplementary, deg);
    StepSettles(p, m7, RightKneeHip, k, b7, supplementary, deg);
    StepSettles(p, m8, LeftKneeHip, k, b8, supplementary, deg);
    MarkedChain(p, m1, m2, m3, m4, m5, m6, m7, m8, m9, supplementary, deg);
    assert b9;
  }

  /** The nine checks change flags only: the result has the same kinds and the same points. */
  lemma MarkedSameSegments(p: JointPairs, supplementary: bool, deg: Atan2Degrees)
    requires Unflagged(p)
    ensures SameSegments(p, Marked(p, supplementary, deg))
  {
    var m := Marked(p, supplementary, deg);
    forall k | k in p
      ensures k in m && m[k].kind == p[k].kind && m[k].startPoint == p[k].startPoint && m[k].endPoint == p[k].endPoint
    {
      MarkedFlags(p, k, supplementary, deg);
    }
    forall k | k in m
      ensures k in p
    {
      MarkedFlags(p, k, supplementary, deg);
    }
    assert m.Keys == p.Keys;
  }

  // ---------------------------------------------------------------------------
  // the checks' conditions

  /** An absent pair, or one with an invalid angle, fails its check and adds nothing. */
  lemma UnusableAddsNothing(p: JointPairs, k: PairKind, supplementary: bool, deg: Atan2Degrees)
    requires k != RootNeck
    requires !Usable(p, k, deg)
    ensures !Passes(p, k, supplementary, deg) && Contribution(p, k, supplementary, deg) == 0
  {
  }

  /** The check on `k` reads only the pair of kind `k`, and the wrist checks also that side's knee-hip pair. */
  predicate Reads(k: PairKind, j: PairKind)
  {
    j == k || (k == RightWristElbow && j == RightKneeHip) || (k == LeftWristElbow && j == LeftKneeHip)
  }

  /** Removing a pair that the check on `k` does not read leaves that check's outcome as it was. */
  lemma ChecksIndependent(p: JointPairs, j: PairKind, k: PairKind, supplementary: bool, deg: Atan2Degrees)
    requires !Reads(k, j)
    ensures Passes(p - {j}, k, supplementary, deg) == Passes(p, k, supplementary, deg)
    ensures Contribution(p - {j}, k, supplementary, deg) == Contribution(p, k, supplementary, deg)
  {
  }

  /** A wrist check passes exactly when both pairs of that side are present and valid and the wrist has a smaller y than the knee. */
  lemma WristCheck(p: JointPairs, supplementary: bool, deg: Atan2Degrees)
    ensures Passes(p, RightWristElbow, supplementary, deg) <==>
      && RightWristElbow in p && !p[RightWristElbow].InvalidAngle(deg)
      && RightKneeHip in p && !p[RightKneeHip].InvalidAngle(deg)
      && p[RightWristElbow].startPoint.y < p[RightKneeHip].startPoint.y
    ensures Passes(p, LeftWristElbow, supplementary, deg) <==>
      && LeftWristElbow in p && !p[LeftWristElbow].InvalidAngle(deg)
      && LeftKneeHip in p && !p[LeftKneeHip].InvalidAngle(deg)
      && p[LeftWristElbow].startPoint.y < p[LeftKneeHip].startPoint.y
  {
  }

  /** On prepared pairs the wrist check compares the recognised wrist with the recognised knee, not the hip, on each side. */
  lemma WristComparesKnee(parts: BodyParts, supplementary: bool, deg: Atan2Degrees)
    ensures RightWristElbow in PreparedPairs(parts) && RightKneeHip in PreparedPairs(parts) ==>
      (PreparedPairs(parts)[RightWristElbow].startPoint.y < PreparedPairs(parts)[RightKneeHip].startPoint.y <==>
       parts[RightWrist].location.y < parts[RightKnee].location.y)
    ensures LeftWristElbow in PreparedPairs(parts) && LeftKneeHip in PreparedPairs(parts) ==>
      (PreparedPairs(parts)[LeftWristElbow].startPoint.y < PreparedPairs(parts)[LeftKneeHip].startPoint.y <==>
       parts[LeftWrist].location.y < parts[LeftKnee].location.y)
  {
    PreparedMembership(parts, RightWristElbow);
    PreparedMembership(parts, RightKneeHip);
    PreparedMembership(parts, LeftWristElbow);
    PreparedMembership(parts, LeftKneeHip);
  }

  // ---------------------------------------------------------------------------
  // the score

  /** The weights of the nine checks add up to the maximum score. */
  lemma WeightsSumToMax()
    ensures Weight(RootNeck) + Weight(LeftElbowShoulder) + Weight(RightElbowShoulder)
      + Weight(RightWristElbow) + Weight(LeftWristElbow) + Weight(RightAnkleKnee)
      + Weight(LeftAnkleKnee) + Weight(RightKneeHip) + Weight(LeftKneeHip) == MaxScore
  {
  }

  /** A check adds at most its weight. */
  lemma ContributionAtMostWeight(p: JointPairs, k: PairKind, supplementary: bool, deg: Atan2Degrees)
    ensures Contribution(p, k, supplementary, deg) <= Weight(k)
  {
  }

  /** The score lies in 0..18. */
  lemma {:induction false} ScoreBounds(p: JointPairs, supplementary: bool, deg: Atan2Degrees)
    ensures 0 <= Score(p, supplementary, deg) <= MaxScore
  {
    ContributionAtMostWeight(p, RootNeck, supplementary, deg);
    ContributionAtMostWeight(p, LeftElbowShoulder, supplementary, deg);
    ContributionAtMostWeight(p, RightElbowShoulder, supplementary, deg);
    ContributionAtMostWeight(p, RightWristElbow, supplementary, deg);
    ContributionAtMostWeight(p, LeftWristElbow, supplementary, deg);
    ContributionAtMostWeight(p, RightAnkleKnee, supplementary, deg);
    ContributionAtMostWeight(p, LeftAnkleKnee, supplementary, deg);
    ContributionAtMostWeight(p, RightKneeHip, supplementary, deg);
    ContributionAtMostWeight(p, LeftKneeHip, supplementary, deg);
  }

  /** The score is the sum of the weights of the pairs the checks flagged. */
  lemma {:induction false} ScoreIsFlaggedWeight(p: JointPairs, supplementary: bool, deg: Atan2Degrees)
    requires Unflagged(p)
    ensures Score(p, supplementary, deg) == FlaggedScore(Marked(p, supplementary, deg))
  {
    var m := Marked(p, supplementary, deg);
    forall k
      ensures FlagWeight(m, k) == Contribution(p, k, supplementary, deg)
    {
      MarkedFlags(p, k, supplementary, deg);
    }
  }

  /** Every check passing gives the full score. */
  lemma AllPassFullScore(p: JointPairs, supplementary: bool, deg: Atan2Degrees)
    requires forall k :: Passes(p, k, supplementary, deg)
    ensures Score(p, supplementary, deg) == MaxScore
  {
  }

  // ---------------------------------------------------------------------------
  // the pose

  /** The pairs of the pose `detect` returns: the prepared pairs, each flagged exactly when its check passes. */
  predicate FlaggedAsChecked(prepared: JointPairs, pairs: JointPairs, supplementary: bool, deg: Atan2Degrees)
  {
    && pairs.Keys == prepared.Keys
    && forall k | k in prepared :: pairs[k] == prepared[k].(isCorrect := Passes(prepared, k, supplementary, deg))
  }

  /** The nine checks leave every prepared pair in place, flagged exactly when its check passes. */
  lemma MarkedFlaggedAsChecked(p: JointPairs, supplementary: bool, deg: Atan2Degrees)
    requires Unflagged(p)
    ensures FlaggedAsChecked(p, Marked(p, supplementary, deg), supplementary, deg)
  {
    var m := Marked(p, supplementary, deg);
    forall k | k in p
      ensures k in m && m[k] == p[k].(isCorrect := Passes(p, k, supplementary, deg))
    {
      MarkedFlags(p, k, supplementary, deg);
    }
    forall k | k in m
      ensures k in p
    {
      MarkedFlags(p, k, supplementary, deg);
    }
    assert m.Keys == p.Keys;
  }

  /**
   * A pose found by `detect`: the prepared torso is valid, its pairs are the
   * prepared pairs with only the flags changed, and its confidence is the
   * score of the flagged pairs over 18.
   */
  lemma DetectedPose(parts: BodyParts, deg: Atan2Degrees, pose: Pose)
    requires PlankDetection(parts, deg) == Some(pose)
    ensures HasTorso(PreparedPairs(parts), deg)
    ensures FlaggedAsChecked(PreparedPairs(parts), pose.jointPairs, Supplementary(PreparedPairs(parts), deg), deg)
    ensures SameSegments(PreparedPairs(parts), pose.jointPairs)
    ensures pose.confidence == FlaggedScore(pose.jointPairs) as real / MaxScore as real
  {
    var p := PreparedPairs(parts);
    var supplementary := Supplementary(p, deg);
    PreparedUnflagged(parts);
    MarkedFlaggedAsChecked(p, supplementary, deg);
    MarkedSameSegments(p, supplementary, deg);
    ScoreIsFlaggedWeight(p, supplementary, deg);
  }

  /** A score turned into a confidence lies in [0, 1], and the pose is correct exactly when the score is at least 10. */
  lemma ConfidenceOfScore(pairs: JointPairs, score: nat)
    requires score <= MaxScore
    ensures 0.0 <= Pose(pairs, score as real / MaxScore as real).confidence <= 1.0
    ensures Pose(pairs, score as real / MaxScore as real).IsCorrect() <==> score >= 10
  {
  }

  /** The confidence of a found pose lies in [0, 1]; the pose is correct exactly when at least 10 of the 18 points were gained. */
  lemma DetectedConfidence(parts: BodyParts, deg: Atan2Degrees, pose: Pose)
    requires PlankDetection(parts, deg) == Some(pose)
    ensures 0.0 <= pose.confidence <= 1.0
    ensures pose.IsCorrect() <==> FlaggedScore(pose.jointPairs) >= 10
  {
    var p := PreparedPairs(parts);
    ScoreBounds(p, Supplementary(p, deg), deg);
    DetectedPose(parts, deg, pose);
    ConfidenceOfScore(pose.jointPairs, FlaggedScore(pose.jointPairs));
  }

  /** Nine points give exactly one half, which is not a correct pose. */
  lemma NinePointsNotCorrect(pairs: JointPairs)
    ensures Pose(pairs, 9 as real / MaxScore as real).confidence == 0.5
    ensures !Pose(pairs, 9 as real / MaxScore as real).IsCorrect()
  {
  }

  /** A frame on which every check passes gives confidence 1 and a correct pose. */
  lemma FullMarks(parts: BodyParts, deg: Atan2Degrees)
    requires HasTorso(PreparedPairs(parts), deg)
    requires forall k :: Passes(PreparedPairs(parts), k, Supplementary(PreparedPairs(parts), deg), deg)
    ensures PlankDetection(parts, deg).Some?
    ensures PlankDetection(parts, deg).value.confidence == 1.0
    ensures PlankDetection(parts, deg).value.IsCorrect()
  {
    var p := PreparedPairs(parts);
    AllPassFullScore(p, Supplementary(p, deg), deg);
  }

  /** A frame in which only the torso pair was recognised scores at most the torso's 4 points and is never a correct pose. */
  lemma TorsoOnlyNotCorrect(parts: BodyParts, deg: Atan2Degrees)
    requires PreparedPairs(parts).Keys == {RootNeck}
    requires HasTorso(PreparedPairs(parts), deg)
    ensures PlankDetection(parts, deg).Some?
    ensures PlankDetection(parts, deg).value.confidence
      == Contribution(PreparedPairs(parts), RootNeck, Supplementary(PreparedPairs(parts), deg), deg) as real / MaxScore as real
    ensures !PlankDetection(parts, deg).value.IsCorrect()
  {
    var p := PreparedPairs(parts);
    var supplementary := Supplementary(p, deg);
    UnusableAddsNothing(p, LeftElbowShoulder, supplementary, deg);
    UnusableAddsNothing(p, RightElbowShoulder, supplementary, deg);
    UnusableAddsNothing(p, RightWristElbow, supplementary, deg);
    UnusableAddsNothing(p, LeftWristElbow, supplementary, deg);
    UnusableAddsNothing(p, RightAnkleKnee, supplementary, deg);
    UnusableAddsNothing(p, LeftAnkleKnee, supplementary, deg);
    UnusableAddsNothing(p, RightKneeHip, supplementary, deg);
    UnusableAddsNothing(p, LeftKneeHip, supplementary, deg);
    ContributionAtMostWeight(p, RootNeck, supplementary, deg);
  }
}
