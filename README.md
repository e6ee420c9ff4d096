# Plank hold tracker — a verified Dafny model

This project models the core of the plank timer in the YandexCup Task 4 iOS app.

- The app reads body joints from each camera frame. A plank detector scores the joints against nine weighted geometric checks. The maximum score is 18.
- The camera screen keeps a small state machine: no detection, or detected with a pose.
- A one-second timer adds to the hold duration while the last correct pose is less than two seconds old.
- The duration is shown as "MM:SS", or as "H:MM:SS" from an hour on. The hour count is padded with a space to width 2 (`%2d`) and takes more digits from 100 hours.
- Two orientation tables turn the device orientation and the camera side into the orientation of the frames and of the preview.

The model has seven modules, one file each:

| file | module | models |
|---|---|---|
| `wrappers.dfy` | `Wrappers` | Swift optionals, as `Option` |
| `pose_detector.dfy` | `PoseDetection` | the joint pairs, `prepare`, and the plank detector's `detect` as a class whose `jointPairs` field the checks update in place |
| `pose_properties.dfy` | `PoseProperties` | what the detector promises: its pairs, its flags, its score and its confidence |
| `camera_controller.dfy` | `CameraController` | the screen's detection state, its date and its duration, as a class; each method is specified by a step function on a snapshot of the three fields |
| `tracking_properties.dfy` | `TrackingProperties` | the transitions and sounds, the state invariant, the duration bounds over any run of events, and the choice of the best pose |
| `duration_format.dfy` | `DurationFormat` | `stringFromTimeInterval`, with Swift's truncating integer arithmetic and the printf directives written out, and a reader proving the text gives the seconds back |
| `orientation.dfy` | `Orientation` | the two orientation tables |

Three details of the code, which the model follows:

- A pose reaches `setState` only from a frame, so a correct pose enters the detected state when its frame arrives. A tick adds duration, or, once the threshold has passed since the last correct pose, calls `setState(.none)` to leave the detected state (CameraViewController.swift:279).
- In the code, a frame that sees a body but yields no pose calls `setState(.none)`. This leaves a detected state at once, without the two-second grace (`TrackingProperties.EmptyFrameExitsAtOnce`). Only a frame without any body observation leaves the state alone (`TrackingProperties.NoObservationNoChange`).
- The hour field is padded with a space to width 2 (`%2d`), so an hour reads " 1:02:05".

## Model

| member | source | states |
|---|---|---|
| PoseDetection.PoseDetector.Prepare | Task4/YandexCupTask4/Scenes/Camera/PoseDetector.swift:72-104 | returns exactly the prepared pairs: one pair per kind whose two endpoints pass the 0.2 confidence filter |
| PoseProperties.PreparedMembership | Task4/YandexCupTask4/Scenes/Camera/PoseDetector.swift:72-104 | the pair of a kind is present iff both its endpoint joints are recognised above 0.2; it starts at the first joint's location, ends at the second's, and is unflagged |
| PoseProperties.WeakJointDropsPairs | Task4/YandexCupTask4/Scenes/Camera/PoseDetector.swift:73 | a joint with confidence at most 0.2 removes every pair it is an endpoint of |
| PoseProperties.PreparedUnflagged | Task4/YandexCupTask4/Scenes/Camera/PoseDetector.swift:39-44 | every freshly prepared pair has its flag false |
| PoseDetection.JointPair.Angle | Task4/YandexCupTask4/Scenes/Camera/PoseDetector.swift:46-49 | no contract of its own: it applies the atan2-in-degrees parameter to the end-minus-start offset; `AngleDependsOnOffset` states what that means |
| PoseProperties.AngleDependsOnOffset | Task4/YandexCupTask4/Scenes/Camera/PoseDetector.swift:46-49 | the angle, and whether it is invalid, depend only on the offset from the start point to the end point |
| PoseDetection.JointPair.SupplementaryAngle | Task4/YandexCupTask4/Scenes/Camera/PoseDetector.swift:51-53 | the supplementary angle lies in [0, 180] iff the angle does, and is below 90 iff the angle is above 90 |
| PoseDetection.JointPair.InvalidAngle | Task4/YandexCupTask4/Scenes/Camera/PoseDetector.swift:55-57 | a pair is valid iff its angle lies in [0, 180], iff its supplementary angle does |
| PoseDetection.JointPair.AngleFor | Task4/YandexCupTask4/Scenes/Camera/PoseDetector.swift:59-61 | the two readings of a segment add up to 180; on a valid segment each lies in [0, 180] |
| PoseProperties.AngleForCases | Task4/YandexCupTask4/Scenes/Camera/PoseDetector.swift:51-61 | `angle(true)` is 180 minus the angle; `angle(false)` is the angle |
| PoseProperties.TorsoValueRange | Task4/YandexCupTask4/Scenes/Camera/PoseDetector.swift:117-124 | with a valid torso and the orientation it selects, the torso value compared with 45 lies in [0, 90] |
| PoseDetection.PoseDetector.Detect | Task4/YandexCupTask4/Scenes/Camera/PoseDetector.swift:106-108 | dispatches on the detector variant: the base variant returns nil and leaves its pairs alone; the plank variant behaves as DetectPlank |
| PoseProperties.GenericFindsNothing | Task4/YandexCupTask4/Scenes/Camera/PoseDetector.swift:106-108 | the base detector returns nil for every frame |
| PoseDetection.PoseDetector.DetectPlank | Task4/YandexCupTask4/Scenes/Camera/PoseDetector.swift:114-191 | returns the plank detection of the frame and leaves the field holding the prepared pairs with the check flags set |
| PoseDetection.PoseDetector.RunChecks | Task4/YandexCupTask4/Scenes/Camera/PoseDetector.swift:120-187 | the nine checks, in the source's order, leave the pairs that `Marked` describes and gain the score that `Score` describes |
| PoseDetection.PoseDetector.CheckBody | Task4/YandexCupTask4/Scenes/Camera/PoseDetector.swift:124-127 | the torso check gains 4 points and flags the pair exactly when `angle(supplementary)` is below 45 |
| PoseDetection.PoseDetector.CheckArm | Task4/YandexCupTask4/Scenes/Camera/PoseDetector.swift:130-144 | an elbow-shoulder check gains 2 and flags its pair exactly when the pair is present, valid, and its angle lies strictly between 70 and 110 |
| PoseDetection.PoseDetector.CheckWrist | Task4/YandexCupTask4/Scenes/Camera/PoseDetector.swift:146-158 | a wrist check gains 3 and flags its pair exactly when both pairs of its side are valid and the wrist has a smaller y than the knee |
| PoseDetection.PoseDetector.CheckLeg | Task4/YandexCupTask4/Scenes/Camera/PoseDetector.swift:161-187 | an ankle-knee or knee-hip check gains 1 and flags its pair exactly when the pair is present, valid, and its angle is under 45 |
| PoseProperties.DetectionNoneIff | Task4/YandexCupTask4/Scenes/Camera/PoseDetector.swift:117 | no pose exactly when the torso pair is missing or its angle lies outside [0, 180] |
| PoseProperties.DetectionNoneIffJoints | Task4/YandexCupTask4/Scenes/Camera/PoseDetector.swift:100-101 | the same, in terms of the joints: root or neck unrecognised, or the root-to-neck angle outside [0, 180] |
| PoseProperties.NoJointsNoPose | Task4/YandexCupTask4/Scenes/Camera/PoseDetector.swift:114-117 | an empty frame gives no pose |
| PoseProperties.StepSettles | Task4/YandexCupTask4/Scenes/Camera/PoseDetector.swift:123-187 | one check preserves the settledness of every kind and settles its own |
| PoseProperties.MarkedFlags | Task4/YandexCupTask4/Scenes/Camera/PoseDetector.swift:123-187 | after the checks, each kind is present iff it was prepared; its segment is kept and its flag is set iff its own check passes |
| PoseProperties.MarkedSameSegments | Task4/YandexCupTask4/Scenes/Camera/PoseDetector.swift:125-185 | the checks change only flags: the same kinds with the same points |
| PoseProperties.MarkedFlaggedAsChecked | Task4/YandexCupTask4/Scenes/Camera/PoseDetector.swift:123-187 | every prepared pair is kept and flagged exactly when its check passes |
| PoseProperties.UnusableAddsNothing | Task4/YandexCupTask4/Scenes/Camera/PoseDetector.swift:130-187 | a missing or invalid non-torso pair fails its check and adds 0 (an invalid torso is kept out by the guard at :117) |
| PoseProperties.ChecksIndependent | Task4/YandexCupTask4/Scenes/Camera/PoseDetector.swift:123-187 | removing a pair that check `k` does not read leaves `k`'s outcome and points unchanged |
| PoseProperties.WristCheck | Task4/YandexCupTask4/Scenes/Camera/PoseDetector.swift:146-158 | each wrist check passes iff its wrist-elbow and knee-hip pairs are present and valid and the wrist's start y is smaller than the knee-hip start y; both sides |
| PoseProperties.WristComparesKnee | Task4/YandexCupTask4/Scenes/Camera/PoseDetector.swift:146-158 | on prepared pairs, on each side, the comparison is between the recognised wrist and the recognised knee, not the hip |
| PoseProperties.WeightsSumToMax | Task4/YandexCupTask4/Scenes/Camera/PoseDetector.swift:120-186 | the nine weights 4+2+2+3+3+1+1+1+1 add to the maximum 18 |
| PoseProperties.ContributionAtMostWeight | Task4/YandexCupTask4/Scenes/Camera/PoseDetector.swift:123-187 | a check adds at most its weight |
| PoseProperties.ScoreBounds | Task4/YandexCupTask4/Scenes/Camera/PoseDetector.swift:120-187 | the score lies in 0..18 |
| PoseProperties.ScoreIsFlaggedWeight | Task4/YandexCupTask4/Scenes/Camera/PoseDetector.swift:123-187 | the score equals the total weight of the pairs the checks flagged |
| PoseProperties.AllPassFullScore | Task4/YandexCupTask4/Scenes/Camera/PoseDetector.swift:120-187 | all nine checks passing gives exactly 18 |
| PoseProperties.DetectedPose | Task4/YandexCupTask4/Scenes/Camera/PoseDetector.swift:114-191 | a found pose has a valid torso; its pairs are the prepared ones with only flags changed, each flagged exactly as its check decided; its confidence is the flagged weight over 18 |
| PoseDetection.Pose.IsCorrect | Task4/YandexCupTask4/Scenes/Camera/PoseDetector.swift:28-30 | no contract of its own: the `confidence > 0.5` test; `ConfidenceOfScore` and `DetectedConfidence` state what it means for a detected pose (correct iff the score is at least 10) |
| PoseProperties.ConfidenceOfScore | Task4/YandexCupTask4/Scenes/Camera/PoseDetector.swift:28-30 | a score over 18 lies in [0, 1], and the pose is correct (`> 0.5`) iff the score is at least 10 |
| PoseProperties.DetectedConfidence | Task4/YandexCupTask4/Scenes/Camera/PoseDetector.swift:189-190 | a found pose's confidence lies in [0, 1] and it is correct iff its flagged weight is at least 10 |
| PoseProperties.NinePointsNotCorrect | Task4/YandexCupTask4/Scenes/Camera/PoseDetector.swift:28-30 | 9 points give exactly 0.5, which is not correct |
| PoseProperties.FullMarks | Task4/YandexCupTask4/Scenes/Camera/PoseDetector.swift:114-191 | a frame passing every check gives a pose of confidence 1, which is correct |
| PoseProperties.TorsoOnlyNotCorrect | Task4/YandexCupTask4/Scenes/Camera/PoseDetector.swift:114-191 | a frame with only the torso pair scores at most 4/18 and is never correct |
| PoseDetection.PoseDetector.constructor | Task4/YandexCupTask4/Scenes/Camera/PoseDetector.swift:68-70 | a new detector has no pairs |
| CameraController.CameraViewController.constructor | Task4/YandexCupTask4/Scenes/Camera/CameraViewController.swift:30-34 | the screen opens with one plank detector, no detection, no date and zero duration |
| CameraController.SoundId | Task4/YandexCupTask4/Scenes/Camera/CameraViewController.swift:252-256 | the entry cue is system sound 1117 and the exit cue 1114; no other cue has either id |
| CameraController.CameraViewController.SetState | Task4/YandexCupTask4/Scenes/Camera/CameraViewController.swift:248-263 | updates the three fields and returns the sound exactly as `SetStateStep`; keeps the state invariant |
| TrackingProperties.IncorrectPoseFromNoneIgnored | Task4/YandexCupTask4/Scenes/Camera/CameraViewController.swift:250-251 | from none, an incorrect pose changes nothing and plays nothing |
| TrackingProperties.CorrectPoseFromNoneEnters | Task4/YandexCupTask4/Scenes/Camera/CameraViewController.swift:250-253 | from none, a correct pose enters detected, dated now, with the entry cue (`SoundId` 1117) |
| TrackingProperties.NoneFromDetectedExits | Task4/YandexCupTask4/Scenes/Camera/CameraViewController.swift:254-256 | from detected, none clears the date, with the exit cue (`SoundId` 1114) |
| TrackingProperties.PoseWhileDetected | Task4/YandexCupTask4/Scenes/Camera/CameraViewController.swift:257-262 | from detected, a new pose replaces the old; the date is refreshed iff the pose is correct, and no sound plays |
| TrackingProperties.NoneFromNoneNoChange | Task4/YandexCupTask4/Scenes/Camera/CameraViewController.swift:259-262 | none while in none changes nothing |
| TrackingProperties.SetStateKeepsDuration | Task4/YandexCupTask4/Scenes/Camera/CameraViewController.swift:248-263 | `setState` never changes the duration |
| TrackingProperties.SetStateCuesMarkEdges | Task4/YandexCupTask4/Scenes/Camera/CameraViewController.swift:248-263 | the entry sound plays iff none becomes detected; the exit sound plays iff detected becomes none |
| TrackingProperties.InitialConsistent | Task4/YandexCupTask4/Scenes/Camera/CameraViewController.swift:31-34 | the initial fields satisfy the invariant: detected iff a date is set |
| TrackingProperties.SetStateConsistent | Task4/YandexCupTask4/Scenes/Camera/CameraViewController.swift:248-263 | `setState` preserves the invariant |
| CameraController.CameraViewController.HandleState | Task4/YandexCupTask4/Scenes/Camera/CameraViewController.swift:265-284 | updates the fields and returns the sound exactly as `TickStep`; keeps the state invariant |
| TrackingProperties.TickConsistent | Task4/YandexCupTask4/Scenes/Camera/CameraViewController.swift:265-284 | a tick preserves the invariant |
| TrackingProperties.TickWithinThreshold | Task4/YandexCupTask4/Scenes/Camera/CameraViewController.swift:272-274 | detected and under 2 seconds since the last correct pose: a tick adds exactly 1 second and nothing else |
| TrackingProperties.TickPastThreshold | Task4/YandexCupTask4/Scenes/Camera/CameraViewController.swift:278-280 | at 2 seconds or more: a tick drops to none with the exit sound, keeping the duration |
| TrackingProperties.TickInNone | Task4/YandexCupTask4/Scenes/Camera/CameraViewController.swift:267-269 | in none, a tick changes nothing |
| TrackingProperties.TickDuration | Task4/YandexCupTask4/Scenes/Camera/CameraViewController.swift:265-284 | a tick adds either nothing or exactly one interval to the duration |
| CameraController.CameraViewController.ResetDuration | Task4/YandexCupTask4/Scenes/Camera/CameraViewController.swift:226-228 | sets the duration to zero, as `ResetStep`; keeps the invariant |
| TrackingProperties.ResetOnlyDuration | Task4/YandexCupTask4/Scenes/Camera/CameraViewController.swift:227 | reset zeroes the duration and leaves the state and the date; it preserves the invariant |
| CameraController.SaveOffer | Task4/YandexCupTask4/Scenes/Camera/CameraViewController.swift:208-216 | the save alert is presented iff the duration is positive, tagged with the duration at the press, which the alert does not display and the saved record does not use |
| CameraController.CameraViewController.DoneButtonDidPress | Task4/YandexCupTask4/Scenes/Camera/CameraViewController.swift:208-221 | presents the save alert iff the duration is positive, tagged with the duration at the press, which the alert does not display and the saved record does not use; otherwise dismisses; changes no field |
| TrackingProperties.NothingToSaveAfterReset | Task4/YandexCupTask4/Scenes/Camera/CameraViewController.swift:209-212 | right after a reset the done button only dismisses |
| CameraController.Found | Task4/YandexCupTask4/Scenes/Camera/CameraViewController.swift:306-307 | at most one pose per detector |
| TrackingProperties.FoundSound | Task4/YandexCupTask4/Scenes/Camera/CameraViewController.swift:306-307 | every pose found is one a detector reported for the frame |
| TrackingProperties.FoundComplete | Task4/YandexCupTask4/Scenes/Camera/CameraViewController.swift:306-307 | every pose a detector reports is among those found |
| CameraController.Best | Task4/YandexCupTask4/Scenes/Camera/CameraViewController.swift:308-309 | none iff there is no pose; otherwise one of them, with no other more confident |
| CameraController.RunDetectors | Task4/YandexCupTask4/Scenes/Camera/CameraViewController.swift:306-307 | runs every detector in order and returns the poses reported, as `Found`; afterwards each plank detector holds the frame's plank pairs (`PlankPairs`), and each base detector keeps its own |
| CameraController.CameraViewController.HandleBodyPose | Task4/YandexCupTask4/Scenes/Camera/CameraViewController.swift:302-316 | updates the fields and returns the sound exactly as `FrameStep`: no observation changes nothing, otherwise the state is set to the best pose found, or to none; without an observation no detector's pairs change, with one each plank detector holds the frame's plank pairs and each base detector keeps its own |
| TrackingProperties.FrameStateIsBest | Task4/YandexCupTask4/Scenes/Camera/CameraViewController.swift:306-311 | the pose a frame sets was reported by some detector, and no detector reported a more confident one |
| TrackingProperties.FrameStateNoneIff | Task4/YandexCupTask4/Scenes/Camera/CameraViewController.swift:306-315 | a frame asks for none iff no detector reports a pose |
| TrackingProperties.EmptyFrameExitsAtOnce | Task4/YandexCupTask4/Scenes/Camera/CameraViewController.swift:312-315 | while detected, a frame with no pose leaves detected at once, with the exit sound |
| TrackingProperties.NoObservationNoChange | Task4/YandexCupTask4/Scenes/Camera/CameraViewController.swift:303-304 | a frame without a body observation changes nothing |
| TrackingProperties.RunConsistent | Task4/YandexCupTask4/Scenes/Camera/CameraViewController.swift:248-284 | any sequence of state changes, ticks and resets preserves the invariant |
| TrackingProperties.RunDurationBounds | Task4/YandexCupTask4/Scenes/Camera/CameraViewController.swift:265-284 | without a reset the duration never decreases and grows by at most 1 second per tick |
| TrackingProperties.HoldScenario | Task4/YandexCupTask4/Scenes/Camera/CameraViewController.swift:248-284 | a correct pose at 0, then ticks at 1 and 2, ends in none with 1 second held; a fresh correct pose at 1.5 keeps the hold, giving 2 seconds |
| DurationFormat.StringFromTimeInterval | Task4/YandexCupTask4/Extensions/TimeInterval+.swift:11-25 | a non-negative duration under an hour gives five characters with the colon third; from an hour on, at least eight |
| DurationFormat.TruncateToInteger | Task4/YandexCupTask4/Extensions/TimeInterval+.swift:12 | `NSInteger(self)` rounds toward zero: the result lies within one unit of the input, on the input's side of zero |
| DurationFormat.QuotRem | Task4/YandexCupTask4/Extensions/TimeInterval+.swift:13-15 | Swift's truncating `/` and `%`: quotient times divisor plus remainder gives back the dividend, and the remainder has the dividend's sign and is smaller than the divisor |
| DurationFormat.Decomposition | Task4/YandexCupTask4/Extensions/TimeInterval+.swift:13-15 | hours, minutes and seconds reassemble the time; for a non-negative time minutes and seconds lie in 0..59; for a negative one all three are non-positive |
| DurationFormat.HoursZeroUnderAnHour | Task4/YandexCupTask4/Extensions/TimeInterval+.swift:15-18 | for a non-negative time the hour field is zero iff the time is under 3600 seconds |
| DurationFormat.TwoDigitField | Task4/YandexCupTask4/Extensions/TimeInterval+.swift:19 | `%0.2d` renders 0..99 as exactly its two decimal digits |
| DurationFormat.HourField | Task4/YandexCupTask4/Extensions/TimeInterval+.swift:22 | `%2d` renders a positive hour count with one leading space when it has one digit, and none otherwise |
| DurationFormat.UnderAnHour | Task4/YandexCupTask4/Extensions/TimeInterval+.swift:18-20 | under an hour the text is the five characters "MM:SS" |
| DurationFormat.ClockShape | Task4/YandexCupTask4/Extensions/TimeInterval+.swift:18-23 | under an hour: five characters, colon third; from an hour on: at least eight, with colons six and three from the end |
| DurationFormat.FromAnHour | Task4/YandexCupTask4/Extensions/TimeInterval+.swift:21-23 | from an hour on, the text is the space-padded hour field followed by ":MM:SS" |
| DurationFormat.ClockRoundTrip | Task4/YandexCupTask4/Extensions/TimeInterval+.swift:11-25 | reading a clock text back gives the whole number of seconds it was made from |
| DurationFormat.RoundTrip | Task4/YandexCupTask4/Extensions/TimeInterval+.swift:11-25 | for a non-negative duration, the text reads back as its truncated whole seconds |
| DurationFormat.SameTextSameSeconds | Task4/YandexCupTask4/Extensions/TimeInterval+.swift:11-25 | two non-negative durations give the same text iff they truncate to the same whole second |
| DurationFormat.ZeroIsInitialTitle | Task4/YandexCupTask4/Extensions/TimeInterval+.swift:18-20 | zero reads "00:00" |
| DurationFormat.MinuteExample | Task4/YandexCupTask4/Extensions/TimeInterval+.swift:18-20 | 65 seconds read "01:05" |
| DurationFormat.FractionExample | Task4/YandexCupTask4/Extensions/TimeInterval+.swift:12 | 59.9 seconds read "00:59": the fraction is dropped, not rounded |
| DurationFormat.HourExample | Task4/YandexCupTask4/Extensions/TimeInterval+.swift:21-23 | 3725 seconds read " 1:02:05" |
| DurationFormat.NegativeExample | Task4/YandexCupTask4/Extensions/TimeInterval+.swift:13-20 | -65 seconds read "-01:-05": each field keeps its sign |
| Orientation.ImageOrientationFor | Task4/YandexCupTask4/Extensions/Orientation+.swift:12-25 | the frame orientation is never mirrored, and it is up or down exactly for the two landscape orientations |
| Orientation.PortraitIgnoresCamera | Task4/YandexCupTask4/Extensions/Orientation+.swift:14-17 | portrait gives right and upside-down gives left, for either camera |
| Orientation.LandscapesDiffer | Task4/YandexCupTask4/Extensions/Orientation+.swift:18-21 | for a fixed camera the two landscapes differ; landscape-left is down for the front camera and up for the back one; switching the camera flips landscape-right |
| Orientation.CameraSideSwapsLandscapes | Task4/YandexCupTask4/Extensions/Orientation+.swift:13-24 | switching the camera side is the same as swapping the two landscape orientations |
| Orientation.DefaultIsPortrait | Task4/YandexCupTask4/Extensions/Orientation+.swift:22-23 | unknown, face-up and face-down give the same as portrait |
| Orientation.VideoOrientationOf | Task4/YandexCupTask4/Extensions/Orientation+.swift:29-37 | defined exactly for portrait, upside-down and the two landscapes; nil otherwise |
| Orientation.VideoOrientationSwapsLandscapes | Task4/YandexCupTask4/Extensions/Orientation+.swift:30-34 | where defined, the video orientation is the namesake of the device orientation with the landscapes swapped, in both directions |
| Orientation.VideoOrientationInjective | Task4/YandexCupTask4/Extensions/Orientation+.swift:29-37 | no two device orientations share a video orientation |

## Left out

- The `atan2` step of `PoseJointPair.angle` (PoseDetector.swift:46-49) is a parameter from a coordinate difference to whole degrees. The model does not fix its range. Nothing proved depends on its values beyond what the checks compare.
- Coordinates and confidences are reals, not `CGFloat`/`Float`. `Float(score)/Float(18)` is exact enough that `> 0.5` agrees with `score >= 10`. Float rounding is not modelled.
- `Pose.jointPairs` keeps the dictionary of pairs, not `Array(jointPairs.values)`. The order of a Swift dictionary's values is unspecified.
- CameraController.Best: `sorted(by:).first` does not fix which of several equally confident poses comes first. `Best` picks the earliest of them. The app only ever has one detector.
- CameraController.SaveOffer: the alert's title and message are fixed text with no number (CameraViewController.swift:214), and the duration tagged on `OfferSave` is the one at the press. The record saved reads `detectionDuration` when Save is tapped (CameraViewController.swift:215-216). Ticks that arrive while the alert is up (the timer runs in the common run-loop mode, :121-122) may have raised it by then.
- CameraController.CameraViewController.DoneButtonDidPress: the same holds; the model does not follow the alert to the Save tap.
- Frames arrive on the camera queue (CameraViewController.swift:25, 187) and ticks on the main run loop (:121-122). In the app they can interleave on the three state fields without a lock. The model runs each frame and each tick whole, one after the other.
- The Vision request, the sample-buffer callback, the camera session, the preview layer and the camera switch (CameraViewController.swift:148-203, 235-239, 289-300) are framework I/O. `handleBodyPose` is modelled from the recognised joints on. A frame on which either of its guards returns is an observation of `None`.
- `Date()`, the `Timer` and `DispatchQueue` are left out. The current date is the `now` parameter of each operation that reads the clock. Dates and `TimeInterval` values, which are `Double` in Swift, are reals. The timer's firing is the caller calling `HandleState`.
- The alert sounds are returned as cues with their sound ids (1117, 1114) instead of played. The alerts, button colours and titles, and the overlay drawing (CameraViewController.swift:268-276, 283) are UI.
- Saving a record through the delegate and dismissing the screen (CameraViewController.swift:210, 214-220) are UI. `DoneButtonDidPress` returns whether the screen is dismissed or the save alert is presented.
- DurationFormat.TruncateToInteger: `NSInteger(x)` traps on NaN, infinities and values out of the 64-bit range. The model covers finite reals only and has no overflow.
- The formatter's reader `ParseClock` is a reference reader written for the round-trip property. The app has no such function.

## Proof structure

- The plank checks are proved against pure functions of the prepared pairs:
  - `Contribution` and `CheckStep` for one check;
  - `Marked` and `Score` for all nine.
- `RunChecks` runs the nine checks in place on the `jointPairs` field. The lemmas `MarkedChain` and `ScoreChain` connect its steps to `Marked` and `Score`.
- Each check only sets flags, so it decides on the prepared geometry whatever checks ran before it.
- The screen's methods are proved against `SetStateStep`, `TickStep`, `ResetStep` and `FrameStep`. The lemmas in `TrackingProperties` are stated on these.
