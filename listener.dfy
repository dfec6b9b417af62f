/** `GestureListener::isGesture`: polls the sensor and walks through a stored
    template step by step, spending strikes on mismatches, until the last step
    is matched or the wave-out pose is seen. */
module Matching {
  import opened Wrappers
  import opened Orientation
  import opened Templates
  import opened Sampling
  import Recording

  /** Mismatches tolerated before progress starts over. */
  const MAX_STRIKES: int := 2

  /** The matcher's counters: steps matched so far and strikes spent. */
  datatype Progress = Progress(correct: nat, strikes: nat)

  const Start := Progress(0, 0)

  predicate InBounds(g: Gesture, p: Progress) {
    p.correct <= |g.values| && p.strikes <= MAX_STRIKES
  }

  /** What one kept sample `a` does to the counters: a match of the step the
      performer is on advances and leaves the strikes alone; a mismatch spends
      a strike while one is left, and otherwise sends both counters back to 0. */
  function Advance(g: Gesture, p: Progress, a: EulerAngle): (q: Progress)
    requires p.correct < |g.values|
    ensures p.strikes <= MAX_STRIKES ==> InBounds(g, q)
    ensures q.correct == p.correct + 1 <==> g.Equals(a, p.correct) == Ok(true)
    ensures q.correct == p.correct + 1 ==> q.strikes == p.strikes
    ensures q.correct != p.correct + 1 ==>
      if p.strikes < MAX_STRIKES then q == Progress(p.correct, p.strikes + 1) else q == Start
  {
    if g.Equals(a, p.correct).value then Progress(p.correct + 1, p.strikes)
    else if p.strikes >= MAX_STRIKES then Start
    else Progress(p.correct, p.strikes + 1)
  }

  /** Why the loop ended: every step matched, or the wave-out pose. */
  datatype Exit = Completed | Cancelled

  /** How a matching loop over a finite feed ends: with its exit, final
      counters and number of polls, or out of observations first (the sensor
      would then keep the loop waiting). */
  datatype Outcome = Ended(exit: Exit, progress: Progress, polls: nat) | Starved {
    /** The same run seen one poll earlier. */
    function Later(): Outcome {
      match this
      case Starved => Starved
      case Ended(e, p, n) => Ended(e, p, n + 1)
    }
  }

  /** What the loop of `isGesture` does with `feed`, from counters `p`, last
      kept sample `last`, and `pose` the pose the collector reports at the top
      of the iteration. The pose is tested before polling, so the sample that
      arrives together with a wave-out is still compared. */
  function Match(g: Gesture, p: Progress, last: EulerAngle, pose: Pose, feed: seq<Observation>): (r: Outcome)
    decreases |feed|
    ensures r.Ended? ==> r.polls <= |feed|
    ensures r.Ended? && InBounds(g, p) ==> InBounds(g, r.progress)
    ensures r.Ended? ==> (r.exit == Completed <==> r.progress.correct >= |g.values|)
  {
    if p.correct >= |g.values| then Ended(Completed, p, 0)
    else if pose == WaveOut then Ended(Cancelled, p, 0)
    else if feed == [] then Starved
    else if feed[0].angle == last then Match(g, p, last, feed[0].pose, feed[1..]).Later()
    else Match(g, Advance(g, p, feed[0].angle), feed[0].angle, feed[0].pose, feed[1..]).Later()
  }

  /** The loop stops at the first wave-out it sees at the top of an iteration,
      whatever strikes remain, and a cancelled run ended on a wave-out. */
  lemma {:induction false} MatchStopsAtFirstWaveOut(g: Gesture, p: Progress, last: EulerAngle, pose: Pose,
                                                    feed: seq<Observation>)
    decreases |feed|
    ensures var r := Match(g, p, last, pose, feed);
      r.Ended? ==>
        && (r.exit == Cancelled ==> (if r.polls == 0 then pose else feed[r.polls - 1].pose) == WaveOut)
        && (r.polls > 0 ==> pose != WaveOut)
        && (forall j :: 0 <= j < r.polls - 1 ==> feed[j].pose != WaveOut)
  {
    var r := Match(g, p, last, pose, feed);
    if r.Ended? && p.correct < |g.values| && pose != WaveOut {
      var q := if feed[0].angle == last then p else Advance(g, p, feed[0].angle);
      MatchStopsAtFirstWaveOut(g, q, feed[0].angle, feed[0].pose, feed[1..]);
      if r.polls > 1 {
        assert feed[r.polls - 1] == feed[1..][r.polls - 2];
      }
      forall j | 0 <= j < r.polls - 1 ensures feed[j].pose != WaveOut {
        if j > 0 { assert feed[j] == feed[1..][j - 1]; }
      }
    }
  }

  /** A feed that reports a wave-out somewhere always lets the loop end. */
  lemma {:induction false} WaveOutEndsMatch(g: Gesture, p: Progress, last: EulerAngle, pose: Pose,
                                            feed: seq<Observation>, i: nat)
    requires i < |feed| && feed[i].pose == WaveOut
    decreases i
    ensures Match(g, p, last, pose, feed).Ended?
  {
    if p.correct < |g.values| && pose != WaveOut {
      var q := if feed[0].angle == last then p else Advance(g, p, feed[0].angle);
      if i > 0 {
        WaveOutEndsMatch(g, q, feed[0].angle, feed[0].pose, feed[1..], i - 1);
      }
    }
  }

  /** An empty template is reported at once, without a poll. */
  lemma EmptyTemplateEndsAtOnce(pose: Pose, feed: seq<Observation>)
    ensures Match(Gesture([]), Start, Origin, pose, feed) == Ended(Completed, Start, 0)
  {
  }

  /** A feed that shows `vs` one sample per poll, all under the same pose. */
  function Replay(vs: seq<EulerAngle>, pose: Pose): (feed: seq<Observation>)
    ensures |feed| == |vs| && forall i :: 0 <= i < |vs| ==> feed[i] == Observation(pose, vs[i])
  {
    seq(|vs|, i requires 0 <= i < |vs| => Observation(pose, vs[i]))
  }

  lemma {:induction false} ReplayFrom(g: Gesture, k: nat, s: nat, last: EulerAngle, top: Pose, pose: Pose)
    requires k <= |g.values| && top != WaveOut && pose != WaveOut
    requires Recording.NoRepeats(last, g.values[k..])
    decreases |g.values| - k
    ensures Match(g, Progress(k, s), last, top, Replay(g.values[k..], pose))
         == Ended(Completed, Progress(|g.values|, s), |g.values| - k)
  {
    if k < |g.values| {
      var feed := Replay(g.values[k..], pose);
      var a := g.values[k];
      EqualsReflexive(a);
      assert feed[0] == Observation(pose, a);
      assert a != last;
      assert Advance(g, Progress(k, s), a) == Progress(k + 1, s);
      assert feed[1..] == Replay(g.values[k + 1..], pose);
      assert Recording.NoRepeats(a, g.values[k + 1..]) by {
        var rest := g.values[k + 1..];
        forall i | 0 < i < |rest| ensures rest[i] != rest[i - 1] {
          assert rest[i] == g.values[k..][i + 1] && rest[i - 1] == g.values[k..][i];
        }
        if |rest| > 0 {
          assert rest[0] == g.values[k..][1];
        }
      }
      ReplayFrom(g, k + 1, s, a, pose, pose);
    }
  }

  /** A template whose neighbouring samples differ (as every recording's do)
      is matched by showing its samples once each, in order. */
  lemma ReplayCompletes(g: Gesture, top: Pose, pose: Pose)
    requires Recording.NoRepeats(Origin, g.values)
    requires top != WaveOut && pose != WaveOut
    ensures Match(g, Start, Origin, top, Replay(g.values, pose))
         == Ended(Completed, Progress(|g.values|, 0), |g.values|)
  {
    assert g.values[0..] == g.values;
    ReplayFrom(g, 0, 0, Origin, top, pose);
  }

  /** What `record()` keeps from a feed is matched by replaying it. */
  lemma RecordingIsMatchedByReplay(feed: seq<Observation>, top: Pose, pose: Pose)
    requires Recording.RecordRun(Origin, feed).Stopped?
    requires top != WaveOut && pose != WaveOut
    ensures var vs := Recording.RecordRun(Origin, feed).values;
      Match(Gesture(vs), Start, Origin, top, Replay(vs, pose)) == Ended(Completed, Progress(|vs|, 0), |vs|)
  {
    Recording.RecordNoRepeats(Origin, feed);
    ReplayCompletes(Gesture(Recording.RecordRun(Origin, feed).values), top, pose);
  }

  /** A feed of `a` then `rest`, where `a` differs from the last kept sample:
      the loop compares `a` and goes on with `rest`. */
  lemma MatchKeeps(g: Gesture, p: Progress, last: EulerAngle, top: Pose, o: Observation, rest: seq<Observation>)
    requires p.correct < |g.values| && top != WaveOut && o.angle != last
    ensures Match(g, p, last, top, [o] + rest) == Match(g, Advance(g, p, o.angle), o.angle, o.pose, rest).Later()
  {
    assert ([o] + rest)[1..] == rest;
  }

  /** One stray sample that misses the step being waited for costs a strike but
      no progress: the rest of the template still completes. */
  lemma StrayFrameIsTolerated(g: Gesture, x: EulerAngle, pose: Pose)
    requires Recording.NoRepeats(Origin, g.values) && |g.values| >= 2
    requires x != g.values[0] && x != g.values[1] && !x.Equals(g.values[1])
    requires pose != WaveOut
    ensures Match(g, Start, Origin, pose, [Observation(pose, g.values[0]), Observation(pose, x)] + Replay(g.values[1..], pose))
         == Ended(Completed, Progress(|g.values|, 1), |g.values| + 1)
  {
    var rest := Replay(g.values[1..], pose);
    var o0, o1 := Observation(pose, g.values[0]), Observation(pose, x);
    EqualsReflexive(g.values[0]);
    EqualsSymmetric(x, g.values[1]);
    assert [o0, o1] + rest == [o0] + ([o1] + rest);
    MatchKeeps(g, Start, Origin, pose, o0, [o1] + rest);
    assert Advance(g, Start, g.values[0]) == Progress(1, 0);
    MatchKeeps(g, Progress(1, 0), g.values[0], pose, o1, rest);
    assert Advance(g, Progress(1, 0), x) == Progress(1, 1);
    assert Recording.NoRepeats(x, g.values[1..]) by {
      forall i | 0 < i < |g.values[1..]| ensures g.values[1..][i] != g.values[1..][i - 1] {
        assert g.values[1..][i] == g.values[i + 1];
      }
    }
    ReplayFrom(g, 1, 1, x, pose, pose);
  }

  /** Three mismatches of the same step send both counters back to 0. */
  lemma ThirdStrikeResets(g: Gesture, k: nat, x: EulerAngle, y: EulerAngle, z: EulerAngle)
    requires k < |g.values|
    requires !x.Equals(g.values[k]) && !y.Equals(g.values[k]) && !z.Equals(g.values[k])
    ensures Advance(g, Progress(k, 0), x) == Progress(k, 1)
    ensures Advance(g, Progress(k, 1), y) == Progress(k, 2)
    ensures Advance(g, Progress(k, 2), z) == Start
  {
    EqualsSymmetric(x, g.values[k]);
    EqualsSymmetric(y, g.values[k]);
    EqualsSymmetric(z, g.values[k]);
  }

  /** After three mismatches of a step the performer starts over, and a full
      replay of the template from its first step still succeeds. */
  lemma ResetThenReplay(g: Gesture, k: nat, last: EulerAngle, x: EulerAngle, y: EulerAngle, z: EulerAngle, pose: Pose)
    requires k < |g.values| && pose != WaveOut
    requires !x.Equals(g.values[k]) && !y.Equals(g.values[k]) && !z.Equals(g.values[k])
    requires x != last && y != x && z != y
    requires Recording.NoRepeats(z, g.values)
    ensures Match(g, Progress(k, 0), last, pose,
                  [Observation(pose, x), Observation(pose, y), Observation(pose, z)] + Replay(g.values, pose))
         == Ended(Completed, Progress(|g.values|, 0), |g.values| + 3)
  {
    var rest := Replay(g.values, pose);
    var ox, oy, oz := Observation(pose, x), Observation(pose, y), Observation(pose, z);
    ThirdStrikeResets(g, k, x, y, z);
    assert [ox, oy, oz] + rest == [ox] + ([oy] + ([oz] + rest));
    MatchKeeps(g, Progress(k, 0), last, pose, ox, [oy] + ([oz] + rest));
    MatchKeeps(g, Progress(k, 1), x, pose, oy, [oz] + rest);
    MatchKeeps(g, Progress(k, 2), y, pose, oz, rest);
    assert g.values[0..] == g.values;
    ReplayFrom(g, 0, 0, z, pose, pose);
  }

  /** The pose is tested before polling: a one-step template is completed by
      the very poll that also reports the wave-out, since its sample is still
      compared. */
  lemma SampleWithWaveOutIsCompared(a: EulerAngle, top: Pose)
    requires a != Origin && top != WaveOut
    ensures Match(Gesture([a]), Start, Origin, top, [Observation(WaveOut, a)])
         == Ended(Completed, Progress(1, 0), 1)
  {
    EqualsReflexive(a);
    MatchKeeps(Gesture([a]), Start, Origin, top, Observation(WaveOut, a), []);
    assert [Observation(WaveOut, a)] == [Observation(WaveOut, a)] + [];
  }

  /** The state of `isGesture`'s loop before poll `k` agrees with the whole run `total`. */
  ghost predicate Resumes(g: Gesture, p: Progress, last: EulerAngle, pose: Pose,
                          feed: seq<Observation>, k: nat, total: Outcome)
  {
    k <= |feed| && total.Ended? &&
    var rest := Match(g, p, last, pose, feed[k..]);
    rest.Ended? && rest.exit == total.exit && rest.progress == total.progress
    && k + rest.polls == total.polls
  }

  /** One turn of `isGesture`'s loop keeps the loop state in step with the run. */
  lemma MatchLoopStep(g: Gesture, p: Progress, last: EulerAngle, pose: Pose,
                      feed: seq<Observation>, k: nat, total: Outcome)
    requires Resumes(g, p, last, pose, feed, k, total)
    requires p.correct < |g.values| && pose != WaveOut
    ensures k < |feed|
    ensures feed[k].angle == last ==> Resumes(g, p, last, feed[k].pose, feed, k + 1, total)
    ensures feed[k].angle != last ==>
      Resumes(g, Advance(g, p, feed[k].angle), feed[k].angle, feed[k].pose, feed, k + 1, total)
  {
    assert feed[k..][1..] == feed[k + 1..];
  }

  /** `isGesture(gesture)`: polls until every step of `gesture` is matched in
      order or the wave-out pose is seen at the top of an iteration, and then
      reports success in either case. `pose` is the pose the collector already
      holds when the call begins; `polls` is the number of polls it made. */
  method IsGesture(gesture: Gesture, pose: Pose, feed: seq<Observation>) returns (r: bool, polls: nat)
    requires Match(gesture, Start, Origin, pose, feed).Ended?
    ensures r
    ensures polls == Match(gesture, Start, Origin, pose, feed).polls
  {
    ghost var total := Match(gesture, Start, Origin, pose, feed);
    var lastAngle := Origin;
    var correct: nat := 0;
    var numSteps := gesture.NumSteps();
    var strikes: nat := 0;
    var minorChange := false;
    var currentPose := pose;
    polls := 0;
    while correct < numSteps
      invariant !minorChange && strikes <= MAX_STRIKES
      invariant Resumes(gesture, Progress(correct, strikes), lastAngle, currentPose, feed, polls, total)
      decreases |feed| - polls
    {
      if currentPose == WaveOut {
        break;
      }
      MatchLoopStep(gesture, Progress(correct, strikes), lastAngle, currentPose, feed, polls, total);
      var observation := feed[polls];
      polls := polls + 1;
      currentPose := observation.pose;
      var verdict := Filter(lastAngle, minorChange, observation.angle);
      minorChange := verdict.minorChange;
      if !verdict.accept {
        continue;
      }
      var newAngle := observation.angle;
      if gesture.Equals(newAngle, correct).value {
        correct := correct + 1;
      } else if strikes >= MAX_STRIKES {
        correct := 0;
        strikes := 0;
      } else {
        strikes := strikes + 1;
      }
      lastAngle := newAngle;
    }
    r := true;
  }
}
