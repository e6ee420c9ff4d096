/**
 * What the detection state machine promises: each transition of `setState`
 * and `handleState`, the detected-iff-dated invariant, the sounds at the
 * edges, the duration that only a reset lowers, and the choice of the best
 * detector result.
 */
module TrackingProperties {
  import opened Wrappers
  import opened PoseDetection
  import opened CameraController

  // ---------------------------------------------------------------------------
  // setState

  /** From none, a pose that is not correct is ignored: state, date and duration stay, and no sound plays. */
  lemma IncorrectPoseFromNoneIgnored(s: Snapshot, pose: Pose, now: real)
    requires s.state == NoDetection && !pose.IsCorrect()
    ensures SetStateStep(s, Detected(pose), now) == Step(s, None)
  {
  }

  /** From none, a correct pose enters the detected state, dated now, with the entry sound. */
  lemma CorrectPoseFromNoneEnters(s: Snapshot, pose: Pose, now: real)
    requires s.state == NoDetection && pose.IsCorrect()
    ensures SetStateStep(s, Detected(pose), now)
      == Step(Snapshot(Detected(pose), Some(now), s.duration), Some(EntrySound))
  {
  }

  /** From detected, none clears the date and plays the exit sound. */
  lemma NoneFromDetectedExits(s: Snapshot, now: real)
    requires s.state.Detected?
    ensures SetStateStep(s, NoDetection, now) == Step(Snapshot(NoDetection, None, s.duration), Some(ExitSound))
  {
  }

  /** From detected, a new pose replaces the old; the date is refreshed only when the new pose is correct. */
  lemma PoseWhileDetected(s: Snapshot, pose: Pose, now: real)
    requires s.state.Detected?
    ensures SetStateStep(s, Detected(pose), now)
      == Step(Snapshot(Detected(pose), if pose.IsCorrect() then Some(now) else s.lastDetectionDate, s.duration), None)
  {
  }

  /** None while in none changes nothing. */
  lemma NoneFromNoneNoChange(s: Snapshot, now: real)
    requires s.state == NoDetection
    ensures SetStateStep(s, NoDetection, now) == Step(s, None)
  {
  }

  /** `setState` never touches the duration. */
  lemma SetStateKeepsDuration(s: Snapshot, newState: DetectionState, now: real)
    ensures SetStateStep(s, newState, now).after.duration == s.duration
  {
  }

  /** The entry sound plays exactly when the state goes from none to detected, the exit sound exactly when it goes back. */
  lemma SetStateCuesMarkEdges(s: Snapshot, newState: DetectionState, now: real)
    ensures var step := SetStateStep(s, newState, now);
      step.cue == Some(EntrySound) <==> s.state == NoDetection && step.after.state.Detected?
    ensures var step := SetStateStep(s, newState, now);
      step.cue == Some(ExitSound) <==> s.state.Detected? && step.after.state == NoDetection
  {
  }

  // ---------------------------------------------------------------------------
  // the invariant

  lemma InitialConsistent()
    ensures Consistent(Initial)
  {
  }

  /** `setState` keeps a detected state dated and a none state undated. */
  lemma SetStateConsistent(s: Snapshot, newState: DetectionState, now: real)
    requires Consistent(s)
    ensures Consistent(SetStateStep(s, newState, now).after)
  {
  }

  /** `handleState` keeps a detected state dated and a none state undated. */
  lemma TickConsistent(s: Snapshot, now: real)
    requires Consistent(s)
    ensures Consistent(TickStep(s, now).after)
  {
  }

  // ---------------------------------------------------------------------------
  // handleState

  /** Within the threshold of the last correct detection, a tick adds one interval and changes nothing else. */
  lemma TickWithinThreshold(s: Snapshot, now: real)
    requires s.state.Detected? && s.lastDetectionDate.Some?
    requires now - s.lastDetectionDate.value < DetectionThreshold
    ensures TickStep(s, now) == Step(s.(duration := s.duration + 1.0), None)
  {
  }

  /** Once the threshold has passed, a tick drops to none with the exit sound and keeps the duration. */
  lemma TickPastThreshold(s: Snapshot, now: real)
    requires s.state.Detected? && s.lastDetectionDate.Some?
    requires now - s.lastDetectionDate.value >= DetectionThreshold
    ensures TickStep(s, now) == Step(Snapshot(NoDetection, None, s.duration), Some(ExitSound))
  {
  }

  /** In none, a tick changes nothing. */
  lemma TickInNone(s: Snapshot, now: real)
    requires s.state == NoDetection
    ensures TickStep(s, now) == Step(s, None)
  {
  }

  /** A tick adds either nothing or exactly one interval to the duration. */
  lemma TickDuration(s: Snapshot, now: real)
    ensures TickStep(s, now).after.duration == s.duration
         || TickStep(s, now).after.duration == s.duration + TimerInterval
  {
  }

  // ---------------------------------------------------------------------------
  // reset and save

  /** Reset sets the duration to zero and touches neither the state nor the date. */
  lemma ResetOnlyDuration(s: Snapshot)
    ensures ResetStep(s).duration == 0.0
    ensures ResetStep(s).state == s.state && ResetStep(s).lastDetectionDate == s.lastDetectionDate
    ensures Consistent(s) ==> Consistent(ResetStep(s))
  {
  }

  /** Right after a reset the done button only dismisses the screen. */
  lemma NothingToSaveAfterReset(s: Snapshot)
    ensures SaveOffer(ResetStep(s).duration) == Dismiss
  {
  }

  // ---------------------------------------------------------------------------
  // frames

  /** The pose a frame uses is one a detector reported, and none reported a more confident one. */
  lemma FrameStateIsBest(detectors: seq<PoseDetector>, parts: BodyParts, deg: Atan2Degrees)
    ensures FrameState(detectors, parts, deg).Detected? ==>
      && (exists d :: d in detectors && Detection(d.posture, parts, deg) == Some(FrameState(detectors, parts, deg).pose))
      && forall d, p :: d in detectors && Detection(d.posture, parts, deg) == Some(p) ==>
           p.confidence <= FrameState(detectors, parts, deg).pose.confidence
  {
    var found := Found(detectors, parts, deg);
    forall d, p | d in detectors && Detection(d.posture, parts, deg) == Some(p)
      ensures p in found
    {
      FoundComplete(detectors, parts, deg, d, p);
    }
    if FrameState(detectors, parts, deg).Detected? {
      FoundSound(detectors, parts, deg, FrameState(detectors, parts, deg).pose);
    }
  }

  /** Every pose found is one some detector reported for the frame. */
  lemma {:induction false} FoundSound(detectors: seq<PoseDetector>, parts: BodyParts, deg: Atan2Degrees, p: Pose)
    requires p in Found(detectors, parts, deg)
    ensures exists d :: d in detectors && Detection(d.posture, parts, deg) == Some(p)
  {
    var init, last := detectors[..|detectors| - 1], detectors[|detectors| - 1];
    if p in Found(init, parts, deg) {
      FoundSound(init, parts, deg, p);
      var d :| d in init && Detection(d.posture, parts, deg) == Some(p);
      assert d in detectors by {
        var i :| 0 <= i < |init| && init[i] == d;
        assert detectors[i] == d;
      }
    } else {
      assert Detection(last.posture, parts, deg) == Some(p);
    }
  }

  /** Every pose a detector reports is among the found ones. */
  lemma {:induction false} FoundComplete(detectors: seq<PoseDetector>, parts: BodyParts, deg: Atan2Degrees,
                                         d: PoseDetector, p: Pose)
    requires d in detectors && Detection(d.posture, parts, deg) == Some(p)
    ensures p in Found(detectors, parts, deg)
  {
    var init := detectors[..|detectors| - 1];
    if d != detectors[|detectors| - 1] {
      assert d in init by {
        var i :| 0 <= i < |detectors| && detectors[i] == d;
        assert init[i] == d;
      }
      FoundComplete(init, parts, deg, d, p);
    }
  }

  /** A frame asks for none exactly when no detector reports a pose. */
  lemma FrameStateNoneIff(detectors: seq<PoseDetector>, parts: BodyParts, deg: Atan2Degrees)
    ensures FrameState(detectors, parts, deg) == NoDetection <==>
      forall d :: d in detectors ==> Detection(d.posture, parts, deg) == None
  {
    if exists d :: d in detectors && Detection(d.posture, parts, deg).Some? {
      var d :| d in detectors && Detection(d.posture, parts, deg).Some?;
      FoundComplete(detectors, parts, deg, d, Detection(d.posture, parts, deg).value);
    } else if Found(detectors, parts, deg) != [] {
      FoundSound(detectors, parts, deg, Found(detectors, parts, deg)[0]);
    }
  }

  /** While detected, a frame in which no detector finds a pose leaves the detected state at once, without any grace. */
  lemma EmptyFrameExitsAtOnce(s: Snapshot, parts: BodyParts, detectors: seq<PoseDetector>, deg: Atan2Degrees, now: real)
    requires s.state.Detected?
    requires forall d :: d in detectors ==> Detection(d.posture, parts, deg) == None
    ensures FrameStep(s, Some(parts), detectors, deg, now)
      == Step(Snapshot(NoDetection, None, s.duration), Some(ExitSound))
  {
    FrameStateNoneIff(detectors, parts, deg);
  }

  /** A frame without a body observation changes nothing, not even a detected state. */
  lemma NoObservationNoChange(s: Snapshot, detectors: seq<PoseDetector>, deg: Atan2Degrees, now: real)
    ensures FrameStep(s, None, detectors, deg, now) == Step(s, None)
  {
  }

  // ---------------------------------------------------------------------------
  // runs

  /** What can happen to the screen: a frame asking for a state, a timer tick, or a reset. */
  datatype Event = SetTo(newState: DetectionState, at: real) | Tick(at: real) | Reset

  function Apply(s: Snapshot, e: Event): Snapshot
  {
    match e
    case SetTo(newState, now) => SetStateStep(s, newState, now).after
    case Tick(now) => TickStep(s, now).after
    case Reset => ResetStep(s)
  }

  /** The fields after the events, in order. */
  function Run(s: Snapshot, events: seq<Event>): Snapshot
    decreases events
  {
    if events == [] then s else Run(Apply(s, events[0]), events[1..])
  }

  function TickCount(events: seq<Event>): nat
  {
    if events == [] then 0 else (if events[0].Tick? then 1 else 0) + TickCount(events[1..])
  }

  /** Every run keeps a detected state dated and a none state undated. */
  lemma {:induction false} RunConsistent(s: Snapshot, events: seq<Event>)
    requires Consistent(s)
    ensures Consistent(Run(s, events))
    decreases events
  {
    if events != [] {
      match events[0] {
        case SetTo(newState, now) => SetStateConsistent(s, newState, now);
        case Tick(now) => TickConsistent(s, now);
        case Reset => ResetOnlyDuration(s);
      }
      RunConsistent(Apply(s, events[0]), events[1..]);
    }
  }

  /** Without a reset the duration never decreases, and it grows by at most one interval per tick. */
  lemma {:induction false} RunDurationBounds(s: Snapshot, events: seq<Event>)
    requires forall i :: 0 <= i < |events| ==> events[i] != Reset
    ensures s.duration <= Run(s, events).duration <= s.duration + TickCount(events) as real * TimerInterval
    decreases events
  {
    if events != [] {
      match events[0] {
        case SetTo(newState, now) => SetStateKeepsDuration(s, newState, now);
        case Tick(now) => TickDuration(s, now);
        case Reset => assert false;
      }
      assert forall i :: 0 <= i < |events[1..]| ==> events[1..][i] == events[i + 1];
      RunDurationBounds(Apply(s, events[0]), events[1..]);
    }
  }

  /**
   * A correct pose seen at time 0 and ticks at 1 and 2 seconds: the first
   * tick counts, the second finds the threshold passed and leaves the
   * detected state. A fresh correct pose at 1.5 would have kept it going.
   */
  lemma HoldScenario(pose: Pose)
    requires pose.IsCorrect()
    ensures Run(Initial, [SetTo(Detected(pose), 0.0), Tick(1.0), Tick(2.0)])
      == Snapshot(NoDetection, None, 1.0)
    ensures Run(Initial, [SetTo(Detected(pose), 0.0), Tick(1.0), SetTo(Detected(pose), 1.5), Tick(2.0)])
      == Snapshot(Detected(pose), Some(1.5), 2.0)
  {
    var enter, tick1, tick2, again := SetTo(Detected(pose), 0.0), Tick(1.0), Tick(2.0), SetTo(Detected(pose), 1.5);
    var held := Snapshot(Detected(pose), Some(0.0), 0.0);
    assert Apply(Initial, enter) == held;
    assert Apply(held, tick1) == held.(duration := 1.0);
    assert Apply(held.(duration := 1.0), tick2) == Snapshot(NoDetection, None, 1.0);
    assert [enter, tick1, tick2][1..] == [tick1, tick2] && [tick1, tick2][1..] == [tick2] && [tick2][1..] == [];
    var refreshed := Snapshot(Detected(pose), Some(1.5), 1.0);
    assert Apply(held.(duration := 1.0), again) == refreshed;
    assert [enter, tick1, again, tick2][1..] == [tick1, again, tick2] && [tick1, again, tick2][1..] == [again, tick2];
    assert [again, tick2][1..] == [tick2];
    assert Apply(refreshed, tick2) == refreshed.(duration := 2.0);
    assert Run(held.(duration := 1.0), [tick2]) == Snapshot(NoDetection, None, 1.0);
    assert Run(held, [tick1, tick2]) == Snapshot(NoDetection, None, 1.0);
    assert Run(refreshed, [tick2]) == refreshed.(duration := 2.0);
    assert Run(held.(duration := 1.0), [again, tick2]) == refreshed.(duration := 2.0);
    assert Run(held, [tick1, again, tick2]) == refreshed.(duration := 2.0);
  }
}
