/**
 * The two orientation tables of the camera screen: the orientation the
 * frames are handed to the body-pose request with, from the camera side and
 * the device orientation, and the orientation the preview connection takes
 * from the device orientation.
 */
module Orientation {
  import opened Wrappers

  /** `UIDeviceOrientation`. */
  datatype DeviceOrientation = Unknown | Portrait | PortraitUpsideDown | LandscapeLeft | LandscapeRight | FaceUp | FaceDown

  /** `CGImagePropertyOrientation`. */
  datatype ImageOrientation = Up | UpMirrored | Down | DownMirrored | LeftMirrored | Right | RightMirrored | Left

  /** `AVCaptureVideoOrientation`. */
  datatype VideoOrientation = VideoPortrait | VideoPortraitUpsideDown | VideoLandscapeRight | VideoLandscapeLeft

  /** The device turned the other way round in landscape; every other orientation stays as it is. */
  function SwapLandscape(device: DeviceOrientation): DeviceOrientation
  {
    match device
    case LandscapeLeft => LandscapeRight
    case LandscapeRight => LandscapeLeft
    case _ => device
  }

  /**
   * `CGImagePropertyOrientation(frontCamera:deviceOrientation:)`. The frames
   * are always read unmirrored, turned a quarter or half way.
   */
  function ImageOrientationFor(frontCamera: bool, device: DeviceOrientation): (r: ImageOrientation)
    ensures r == Up || r == Down || r == Left || r == Right
    ensures (r == Up || r == Down) <==> (device == LandscapeLeft || device == LandscapeRight)
  {
    match device
    case Portrait => Right
    case PortraitUpsideDown => Left
    case LandscapeLeft => if frontCamera then Down else Up
    case LandscapeRight => if frontCamera then Up else Down
    case _ => Right
  }

  /** `UIDeviceOrientation.videoOrientation`: defined exactly for the four upright orientations. */
  function VideoOrientationOf(device: DeviceOrientation): (r: Option<VideoOrientation>)
    ensures r.Some? <==> device in {Portrait, PortraitUpsideDown, LandscapeLeft, LandscapeRight}
  {
    match device
    case PortraitUpsideDown => Some(VideoPortraitUpsideDown)
    case LandscapeRight => Some(VideoLandscapeLeft)
    case LandscapeLeft => Some(VideoLandscapeRight)
    case Portrait => Some(VideoPortrait)
    case _ => None
  }

  /** The device orientation each video orientation is named after. */
  function DeviceNamed(video: VideoOrientation): DeviceOrientation
  {
    match video
    case VideoPortrait => Portrait
    case VideoPortraitUpsideDown => PortraitUpsideDown
    case VideoLandscapeRight => LandscapeRight
    case VideoLandscapeLeft => LandscapeLeft
  }

  /** Portrait and upside-down portrait do not depend on the camera side. */
  lemma PortraitIgnoresCamera(frontCamera: bool)
    ensures ImageOrientationFor(frontCamera, Portrait) == Right
    ensures ImageOrientationFor(frontCamera, PortraitUpsideDown) == Left
  {
  }

  /** The two landscapes give opposite orientations, and which is which depends on the camera side. */
  lemma LandscapesDiffer(frontCamera: bool)
    ensures ImageOrientationFor(frontCamera, LandscapeLeft) != ImageOrientationFor(frontCamera, LandscapeRight)
    ensures ImageOrientationFor(frontCamera, LandscapeLeft) == if frontCamera then Down else Up
    ensures ImageOrientationFor(frontCamera, LandscapeRight) != ImageOrientationFor(!frontCamera, LandscapeRight)
  {
  }

  /** Switching the camera side is the same as turning the device the other way round in landscape. */
  lemma CameraSideSwapsLandscapes(frontCamera: bool, device: DeviceOrientation)
    ensures ImageOrientationFor(!frontCamera, device) == ImageOrientationFor(frontCamera, SwapLandscape(device))
  {
  }

  /** Unknown, face-up and face-down orientations are read as portrait. */
  lemma DefaultIsPortrait(frontCamera: bool, device: DeviceOrientation)
    requires VideoOrientationOf(device).None?
    ensures ImageOrientationFor(frontCamera, device) == ImageOrientationFor(frontCamera, Portrait)
  {
  }

  /**
   * Where it is defined, the video orientation is the device orientation's
   * namesake with the landscapes swapped, and no two device orientations share one.
   */
  lemma VideoOrientationSwapsLandscapes(device: DeviceOrientation, video: VideoOrientation)
    ensures VideoOrientationOf(device) == Some(video) <==> device == SwapLandscape(DeviceNamed(video))
  {
  }

  /** The video orientation tells the device orientation apart wherever it is defined. */
  lemma VideoOrientationInjective(a: DeviceOrientation, b: DeviceOrientation)
    requires VideoOrientationOf(a).Some? && VideoOrientationOf(a) == VideoOrientationOf(b)
    ensures a == b
  {
    VideoOrientationSwapsLandscapes(a, VideoOrientationOf(a).value);
    VideoOrientationSwapsLandscapes(b, VideoOrientationOf(a).value);
  }
}
