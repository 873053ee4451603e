/** The `getUserMedia` constraint object the webcam builds: a video part that
    names either a facing mode or an exact device id, fixed size ranges, and
    no audio. */
module Constraints {
  import opened Options

  /** A `{min, ideal, max}` size range, in pixels. */
  datatype Range = Range(min: int, ideal: int, max: int) {
    predicate Ordered() {
      min <= ideal <= max
    }
  }

  /** The `{exact: id}` form of a device-id constraint. */
  datatype Exact = Exact(exact: string)

  /** The `video` part; an absent property is `None`. */
  datatype VideoConstraints = VideoConstraints(
    facingMode: Option<string>,
    deviceId: Option<Exact>,
    width: Range,
    height: Range)

  datatype MediaConstraints = MediaConstraints(video: VideoConstraints, audio: bool)

  const Width: Range := Range(1024, 1280, 1920)
  const Height: Range := Range(576, 720, 1080)

  /** The device id a constraint object asks for, read back from it: the exact
      id when one is set, otherwise the empty string, which the webcam uses for
      "no device selected". */
  function RequestedDeviceId(c: MediaConstraints): string
  {
    match c.video.deviceId
    case Some(Exact(id)) => id
    case None => ""
  }
}
