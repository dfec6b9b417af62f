/** What the recording and matching loops see of the sensor after each poll,
    and the filter both loops apply to a freshly polled sample. */
module Sampling {
  import opened Orientation

  /** The pose classifications the armband reports (`myo::Pose`). */
  datatype Pose = Rest | Fist | WaveIn | WaveOut | FingersSpread | DoubleTap | Unknown

  /** The collector's state right after one `hub->run(1000/FREQUENCY)`: the
      current pose and the quantized orientation `(roll_w, pitch_w, yaw_w)`. */
  datatype Observation = Observation(pose: Pose, angle: EulerAngle)

  /** Whether every axis of `b` is within one level of `a`'s. */
  predicate WithinOneLevel(a: EulerAngle, b: EulerAngle) {
    Abs(a.pitch - b.pitch) <= 1 && Abs(a.roll - b.roll) <= 1 && Abs(a.yaw - b.yaw) <= 1
  }

  /** Whether the loop keeps the sample, and the new value of its `minorChange` flag. */
  datatype Verdict = Verdict(accept: bool, minorChange: bool)

  /** The two tests each loop runs on a polled sample against the last kept one:
      an identical sample is dropped and clears the flag; a sample within one
      level is held back while the flag is set; anything else is kept and
      clears the flag. The flag is only ever set by the hold itself, so from a
      cleared flag the hold never fires and the filter is exact-equality rejection. */
  function Filter(last: EulerAngle, minorChange: bool, sample: EulerAngle): (v: Verdict)
    ensures !minorChange ==> v == Verdict(sample != last, false)
    ensures v.minorChange ==> minorChange && sample != last
  {
    if sample == last then Verdict(false, false)
    else if WithinOneLevel(last, sample) && minorChange then Verdict(false, true)
    else Verdict(true, false)
  }
}
