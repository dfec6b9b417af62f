# Gesture recording and matching for the Myo armband, modelled in Dafny

This project models the integer core of `hello-myo.cpp`, a physical-therapy
tool for the Myo armband. A therapist records a movement as a *template*: a
sequence of orientation samples (roll, pitch, yaw, each quantized to a small
integer). The template is kept by name. A patient then performs repetitions,
and each repetition is matched against the template step by step. Stray
samples cost strikes, and the performer can cancel with a wave-out.

The model covers:

- `EulerAngle` (module `Orientation`): the integer triple, equality within
  `TOLERANCE` = 2 on each axis, and the JSON-like rendering. A parser shows the
  rendering is lossless.
- `Gesture` (module `Templates`): the template as a value. It covers the
  indexed comparison with its out-of-range error, the step count, and the
  string builder of `toJSONString`.
- The sample filter shared by both polling loops (module `Sampling`). Its
  "minor change" hold tests a flag that is always false when it is reached, so
  the branch is dead and filtering drops only exact repeats.
- `GestureRecorder` (module `Recording`): a class whose `lastGesture` field
  `reset` and `record` reassign. `record` is a `while` loop proved against a
  specification function `RecordRun`, and lemmas about that function give:
  - the stop at the first double tap;
  - run-length compression of the polled stream;
  - no two neighbouring samples equal.
- `GestureListener::isGesture` (module `Matching`): a `while` loop proved
  against the specification function `Match`, which has lemmas about:
  - cancellation on a wave-out;
  - the reset after the third strike;
  - tolerance of a stray sample;
  - replaying a recording completing the match.

  The method returns `true` on every exit.
- `Gestures` (module `Registry`): a class over a `map<string, Gesture>`.
  - `getSize` and `keyAt` walk the keys in `std::map` order, modelled by the
    `SortedKeys` function and proved to be the unique ascending listing.
  - `keyAt` as written never advances its counter. It is modelled as written,
    next to a corrected version (see Findings).

Sensor input is a parameter. `hub->run` and the `DataCollector` fields it
refreshes become a finite `feed` of observations. Each observation is the
pose and the quantized triple that a poll leaves in the collector, and each
poll consumes one. The source blocks until the device delivers a stop pose.
Over a finite feed, the specification functions return `Starved` when the
feed runs out first. The methods require a feed on which the loop ends.
`RecordStopsAtFirstDoubleTap` shows that a recording stops exactly when the
feed contains a double tap. `WaveOutEndsMatch` shows that a match always ends
on a feed that contains a wave-out.

## Model

| member | source | states |
|---|---|---|
| `Orientation.EulerAngle.Equals` | hello-myo.cpp:174-186 | holds iff each of roll, pitch and yaw of the argument lies within `TOLERANCE` = 2 of this angle's |
| `Orientation.EqualsReflexive` | hello-myo.cpp:174-186 | every angle equals itself within tolerance |
| `Orientation.EqualsSymmetric` | hello-myo.cpp:174-186 | tolerance equality does not depend on argument order |
| `Orientation.EqualsNotTransitive` | hello-myo.cpp:174-186 | rolls 0 and 2 match, 2 and 4 match, but 0 and 4 do not: tolerance equality is not transitive |
| `Orientation.EulerAngle.ToJSONString` | hello-myo.cpp:188-194 | the object `{"roll": …, "pitch": …, "yaw": …}` with line feeds, each axis written by `std::to_string`; its properties are the round trip `ParseAngleAfterRender`, `RenderHasNoControlCharacters` and `RenderNonEmpty` |
| `Orientation.ParseAngle` | hello-myo.cpp:188-194 | a successful parse leaves a remainder strictly shorter than its input |
| `Orientation.ParseAngleLeavesSuffix` | hello-myo.cpp:188-194 | what a successful parse leaves is a suffix of its input: the parse takes text off the front only |
| `Orientation.ParseAngleAfterRender` | hello-myo.cpp:188-194 | parsing the rendering of any angle, followed by any text, gives back the angle and exactly that text |
| `Orientation.RenderHasNoControlCharacters` | hello-myo.cpp:188-194 | every character of an angle's rendering is a line feed or printable ASCII (space to `~`) |
| `Orientation.RenderNonEmpty` | hello-myo.cpp:188-194 | an angle's rendering is longer than its opening literal |
| `Decimal.NatToString` | hello-myo.cpp:190-192 | `std::to_string` of a non-negative value is a non-empty digit string with no leading zero |
| `Decimal.IntToString` | hello-myo.cpp:190-192 | `std::to_string` of an `int`: the digits of a non-negative value, or a minus sign followed by a digit string with no leading zero for a negative one |
| `Decimal.NatToStringValue` | hello-myo.cpp:190-192 | the digits `std::to_string` writes for a natural number denote that number |
| `Decimal.ReadIntAfterRender` | hello-myo.cpp:190-192 | reading an integer back from `std::to_string` of any `int`, followed by a non-digit, gives the integer and the remaining text |
| `Templates.Gesture.Equals` | hello-myo.cpp:211-221 | succeeds iff `0 <= n < ` the number of steps (otherwise `at()` throws `out_of_range`), and then holds iff step `n` and the angle are within tolerance on every axis |
| `Templates.Gesture.NumSteps` | hello-myo.cpp:223-226 | the number of samples in the template |
| `Templates.Gesture.ToJSONString` | hello-myo.cpp:228-238 | the loop's builder is the header, then each sample's rendering in order each followed by `", "`, then two backspace characters and `]\n}` |
| `Templates.TerminatedIsJoinedWithSeparator` | hello-myo.cpp:232-235 | the loop's accumulation of renderings with a separator after each equals the renderings joined by the separator plus one trailing separator |
| `Templates.AsWrittenKeepsSeparator` | hello-myo.cpp:228-238 | the empty template gives header then trailer; a non-empty one keeps the last `", "` before the trailer |
| `Templates.AsWrittenBackspaces` | hello-myo.cpp:236 | the output holds two literal U+0008 characters, which are not JSON whitespace under section 2 of RFC 8259, and for a non-empty template the `", "` before them remains |
| `Templates.GestureJSON` | hello-myo.cpp:228-238 | the text `toJSONString` returns as written: header, each rendering followed by `", "`, then the backspace trailer; `Gesture.ToJSONString` is proved to build it and `AsWrittenBackspaces` shows its defect |
| `Templates.JoinedJSON` | hello-myo.cpp:228-238 | the corrected rendering: header, the renderings joined by `", "` with none after the last, then `]\n}`; `JoinedJSONRoundTrip` and `JoinedJSONHasNoBackspace` are its properties |
| `Templates.GestureJSONInjective` | hello-myo.cpp:228-238 | different templates render to different strings |
| `Templates.JoinedJSONRoundTrip` | hello-myo.cpp:228-238 | parsing the corrected rendering of any template gives the template back |
| `Templates.JoinedJSONHasNoBackspace` | hello-myo.cpp:228-238 | the corrected rendering holds no backspace character |
| `Sampling.Filter` | hello-myo.cpp:287-297 | with the hold flag clear (as it always is), a sample is accepted iff it differs from the last kept one, and the flag stays clear; the hold can only be reported when the flag was already set |
| `Recording.RecordRun` | hello-myo.cpp:265-310 | a run that stops used at least one and at most all observations of the feed |
| `Recording.RecordStopsAtFirstDoubleTap` | hello-myo.cpp:274-278 | recording stops iff the feed reports a double tap, and then on the poll that delivers the first one |
| `Recording.RecordIsCompression` | hello-myo.cpp:287-304 | the kept samples are the samples polled before the double tap, in arrival order, with every sample equal to its predecessor dropped; the sample delivered with the double tap is not kept |
| `Recording.Compress` | hello-myo.cpp:287-304 | the reference definition of the kept samples: never longer than the polled stream, and every kept sample was polled |
| `Recording.CompressNoRepeats` | hello-myo.cpp:287-304 | dropping samples equal to their predecessor leaves no two neighbours equal |
| `Recording.RecordNoRepeats` | hello-myo.cpp:267-304 | a recording has no two equal neighbours and does not start with `(0,0,0)` |
| `Recording.CompressKeepsDistinct` | hello-myo.cpp:287-304 | samples that each differ from their predecessor are all kept, unchanged |
| `Recording.CompressIgnoresRepeat` | hello-myo.cpp:287-291 | polling a sample twice in a row records it once |
| `Recording.RecordDistinctSamples` | hello-myo.cpp:265-310 | a feed of samples that each differ from their predecessor (the first from `(0,0,0)`), closed by a double tap, is recorded exactly |
| `Recording.GestureRecorder.constructor` | hello-myo.cpp:250-257 | the recorder starts with an empty template |
| `Recording.GestureRecorder.Reset` | hello-myo.cpp:259-263 | the recorder holds a new, empty template |
| `Recording.GestureRecorder.Record` | hello-myo.cpp:265-310 | after resetting, the template is what `RecordRun` keeps from the feed from `(0,0,0)` and the poll count is its poll count; the filter's hold flag is clear at every turn |
| `Recording.GestureRecorder.GetGesture` | hello-myo.cpp:321-324 | the recorder's template, whose neighbouring samples all differ |
| `Matching.Advance` | hello-myo.cpp:378-390 | counters stay within `0..numSteps` and `0..MAX_STRIKES`; `correct` grows by one iff the sample matches the current step, and strikes are then unchanged (they add up across steps); a mismatch adds a strike while fewer than `MAX_STRIKES` = 2 are spent, and otherwise resets both counters to 0 |
| `Matching.Match` | hello-myo.cpp:346-397 | an ended run used at most the whole feed, keeps the counters in bounds, and completes iff every step was matched |
| `Matching.MatchStopsAtFirstWaveOut` | hello-myo.cpp:353-358 | the loop stops at the first wave-out seen at the top of an iteration, with any strikes left; a cancelled run ended on a wave-out |
| `Matching.WaveOutEndsMatch` | hello-myo.cpp:353-358 | a feed that reports a wave-out anywhere lets the loop end |
| `Matching.EmptyTemplateEndsAtOnce` | hello-myo.cpp:350-353 | an empty template completes at once, without a poll |
| `Matching.ReplayFrom` | hello-myo.cpp:353-395 | from step `k`, showing the remaining steps once each completes the template in exactly that many polls, with the strikes unchanged |
| `Matching.ReplayCompletes` | hello-myo.cpp:353-395 | a template with no equal neighbours is completed by showing its samples once each, in order, with no strike spent |
| `Matching.RecordingIsMatchedByReplay` | hello-myo.cpp:265-310 | any template `record()` produces is completed by replaying its samples |
| `Matching.MatchKeeps` | hello-myo.cpp:359-394 | unfolds one turn of `Match`: a sample that differs from the last kept one is compared with the current step, and the loop goes on from the new counters |
| `Matching.StrayFrameIsTolerated` | hello-myo.cpp:378-390 | one stray sample after the first step costs a strike and no progress, and the rest of the template still completes |
| `Matching.ThirdStrikeResets` | hello-myo.cpp:382-390 | three mismatches of the same step, starting from no strikes, leave the counters at 1, then 2, then back to 0 and 0 |
| `Matching.ResetThenReplay` | hello-myo.cpp:378-395 | after three mismatches of a step, a full replay from the first step still completes the template |
| `Matching.SampleWithWaveOutIsCompared` | hello-myo.cpp:353-380 | the pose is tested before polling, so the sample delivered with a wave-out is still compared and can complete the template |
| `Matching.IsGesture` | hello-myo.cpp:346-397 | returns `true` on every exit, after exactly the polls `Match` makes; the hold flag is clear at every turn and the strikes never exceed `MAX_STRIKES` |
| `Registry.KeyLess` | hello-myo.cpp:468 | the `std::less<std::string>` order of the map's keys: first differing character decides, a proper prefix comes first; proved a strict total order by the four lemmas below |
| `Registry.KeyLessIrreflexive` | hello-myo.cpp:468 | no key is ordered before itself |
| `Registry.KeyLessAsymmetric` | hello-myo.cpp:468 | two keys are never each ordered before the other |
| `Registry.KeyLessTransitive` | hello-myo.cpp:468 | the key order is transitive |
| `Registry.KeyLessTotal` | hello-myo.cpp:468 | any two different keys are ordered one way or the other |
| `Registry.LeastExists` | hello-myo.cpp:468 | every non-empty set of keys has a first key in map order |
| `Registry.LeastUnique` | hello-myo.cpp:468 | that first key is unique |
| `Registry.SortedKeys` | hello-myo.cpp:470-478 | the iteration order lists each key of the map exactly once, strictly ascending |
| `Registry.SortedKeysFirst` | hello-myo.cpp:470-478 | the iteration visits the least key first, then the others in order |
| `Registry.AscendingIsSortedKeys` | hello-myo.cpp:470-478 | every strictly ascending listing of the keys is the iteration order |
| `Registry.KeyAtAsWritten` | hello-myo.cpp:469-479 | `keyAt` as written gives a name iff `n == 0` and the map is non-empty, and that name is a key |
| `Registry.NthKey` | hello-myo.cpp:468-479 | the intended `keyAt(n)` gives a name iff `0 <= n <` the number of entries, and that name is a key |
| `Registry.AsWrittenMissesLaterKeys` | hello-myo.cpp:468-479 | `keyAt` as written agrees with the intended one at 0, and for `0 < n < ` size finds no name where the intended one does |
| `Registry.FirstKeyIsLeast` | hello-myo.cpp:468-479 | `keyAt(0)` on a non-empty map is the least key |
| `Registry.Gestures.constructor` | hello-myo.cpp:468 | the registry starts empty |
| `Registry.Gestures.Save` | hello-myo.cpp:545 | the name is bound to the template, every other entry stays, and the size grows by one iff the name was new |
| `Registry.Gestures.GetSize` | hello-myo.cpp:480-488 | the number of entries in the map |
| `Registry.Gestures.KeyAt` | hello-myo.cpp:468-479 | as written: the least key when `n == 0` and the map is non-empty, no name otherwise |
| `Registry.Gestures.KeyAtCorrected` | hello-myo.cpp:468-479 | the `n`-th key in map order when `0 <= n <` size, no name otherwise |
| `Registry.SaveThenRecordAgain` | hello-myo.cpp:544-545 | saving the recorder's template and then recording again leaves the saved template as it was |

## Left out

- The quaternion-to-Euler conversion and its float quantization in `onOrientationData` (hello-myo.cpp:47-67) use floating point. The model takes its output as an integer triple carried by each observation.
- The Myo SDK (`Hub`, `waitForMyo`, `addListener`, `hub->run`, the `DeviceListener` callbacks) is device I/O. Polling becomes the `feed` parameter, and `FREQUENCY`, the poll period, has no counterpart.
- Console output (`print`, `printLastGesture`, the `std::cout` echoes inside the loops) is pure output and is not modelled.
- `main`'s menu, prompts and repetition loop (hello-myo.cpp:491-594) are interactive glue. Only the save at hello-myo.cpp:545 is modelled, as `Gestures.Save`.
- The commented-out `waveOut` reset in `record` (hello-myo.cpp:279-286) and the commented-out map-based `isGesture` (hello-myo.cpp:398-453) are not compiled and not modelled.
- Heap ownership and leaks (`new` without `delete`) are not modelled. Templates are values, so the aliasing constructor `Gesture(std::vector*)` and object identity have no counterpart. The model captures only that a saved template is not changed by a later recording.
- Recording.GestureRecorder.Record: requires a feed on which the loop stops. The source, given no double tap, waits on the sensor forever, which a finite feed cannot express; `RecordRun` returns `Starved` for such feeds.
- Matching.IsGesture: requires a feed on which the loop ends, for the same reason. `Match` returns `Starved` otherwise.
- Registry.Gestures.KeyAt: the source's undefined behaviour (control reaching the end of a non-void function) is modelled as `None`, rather than as a precondition `n == 0`, so the fault stays visible.
- Registry.KeyLess: `std::string` ordering compares characters as unsigned bytes, and the model compares Dafny characters by code point. The two agree on names made of bytes 0-255 read as code points.
- Machine integer widths are not modelled: `int` counters, the `size_t` returned by `size()` and its conversion to `int` are unbounded here. Overflow would need more than 2^31 samples or entries.
- `std::to_string` is modelled for the decimal rendering of an `int` only. The axes are assumed to be integers, and no locale is involved.

## Findings

| source | as written | input that shows it | evidently intended | confidence | as-written member | corrected member |
|---|---|---|---|---|---|---|
| hello-myo.cpp:468-479 | `keyAt` never increments `i`, so for `n > 0`, or for an empty map, the loop ends without a `return`, which is undefined behaviour | two saved templates; the menu lists `keyAt(1)` (hello-myo.cpp:561) | return the `n`-th name in map order | high, not executed | `Registry.Gestures.KeyAt` (`Registry.AsWrittenMissesLaterKeys`) | `Registry.Gestures.KeyAtCorrected` |
| hello-myo.cpp:228-238 | `toJSONString` appends `", "` after every sample and then two literal backspace characters, so the output keeps the trailing separator plus two U+0008 characters and is not valid JSON | a template with one sample `(0,0,0)`: the output ends in `}, ` followed by two U+0008 and `]\n}` | the samples joined by `", "`, with no backspaces | high, not executed | `Templates.Gesture.ToJSONString` (`Templates.AsWrittenBackspaces`) | `Templates.JoinedJSON` (`Templates.JoinedJSONRoundTrip`) |
