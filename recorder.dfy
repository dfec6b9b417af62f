/** `GestureRecorder`: polls the sensor, keeps every sample that differs from
    the last kept one, and stops when the double-tap pose is reported. */
module Recording {
  import opened Orientation
  import opened Templates
  import opened Sampling

  /** How a recording loop over a finite feed ends: stopped by a double tap
      after `polls` polls having kept `values`, or out of observations first
      (the sensor would then keep the loop waiting). */
  datatype Take = Stopped(values: seq<EulerAngle>, polls: nat) | Starved {
    /** The same run seen one poll earlier, which kept `kept` on that poll. */
    function After(kept: seq<EulerAngle>): Take {
      match this
      case Starved => Starved
      case Stopped(vs, n) => Stopped(kept + vs, n + 1)
    }
  }

  /** What the loop of `record()` does with `feed` when the last kept sample is `last`. */
  function RecordRun(last: EulerAngle, feed: seq<Observation>): (r: Take)
    decreases |feed|
    ensures r.Stopped? ==> 1 <= r.polls <= |feed|
  {
    if feed == [] then Starved
    else if feed[0].pose == DoubleTap then Stopped([], 1)
    else if feed[0].angle == last then RecordRun(last, feed[1..]).After([])
    else RecordRun(feed[0].angle, feed[1..]).After([feed[0].angle])
  }

  /** The state of `record()`'s loop before poll `k` agrees with the whole run
      `total`: what is kept so far, followed by what the rest of the feed
      yields from the last kept sample `last`, is the whole recording. */
  ghost predicate Resumes(kept: seq<EulerAngle>, last: EulerAngle, feed: seq<Observation>, k: nat, total: Take) {
    k <= |feed| && total.Stopped? &&
    var rest := RecordRun(last, feed[k..]);
    rest.Stopped? && kept + rest.values == total.values && k + rest.polls == total.polls
  }

  /** One turn of `record()`'s loop keeps the loop state in step with the run. */
  lemma RecordLoopStep(kept: seq<EulerAngle>, last: EulerAngle, feed: seq<Observation>, k: nat, total: Take)
    requires Resumes(kept, last, feed, k, total)
    ensures k < |feed|
    ensures feed[k].pose == DoubleTap ==> kept == total.values && k + 1 == total.polls
    ensures feed[k].pose != DoubleTap && feed[k].angle == last ==> Resumes(kept, last, feed, k + 1, total)
    ensures feed[k].pose != DoubleTap && feed[k].angle != last ==>
      Resumes(kept + [feed[k].angle], feed[k].angle, feed, k + 1, total)
  {
    assert feed[k..][1..] == feed[k + 1..];
    if feed[k].pose != DoubleTap && feed[k].angle != last {
      var a := feed[k].angle;
      var rest := RecordRun(a, feed[k + 1..]);
      assert kept + [a] + rest.values == kept + ([a] + rest.values);
    }
  }

  /** No sample of `vs` equals the one before it, the first compared with `first`. */
  predicate NoRepeats(first: EulerAngle, vs: seq<EulerAngle>) {
    && (|vs| > 0 ==> vs[0] != first)
    && forall i :: 0 < i < |vs| ==> vs[i] != vs[i - 1]
  }

  /** The polled samples in arrival order. */
  function Angles(feed: seq<Observation>): (xs: seq<EulerAngle>)
    ensures |xs| == |feed| && forall i :: 0 <= i < |feed| ==> xs[i] == feed[i].angle
  {
    seq(|feed|, i requires 0 <= i < |feed| => feed[i].angle)
  }

  /** `xs` with every sample dropped that equals the sample polled just before
      it (`prev` for the first): run-length compression of the polled stream. */
  function Compress(prev: EulerAngle, xs: seq<EulerAngle>): (r: seq<EulerAngle>)
    decreases |xs|
    ensures |r| <= |xs|
    ensures forall k :: 0 <= k < |r| ==> r[k] in xs
  {
    if xs == [] then []
    else (if xs[0] == prev then [] else [xs[0]]) + Compress(xs[0], xs[1..])
  }

  /** The recording stops iff the feed reports a double tap, and then on the
      poll that delivers the first one. */
  lemma {:induction false} RecordStopsAtFirstDoubleTap(last: EulerAngle, feed: seq<Observation>)
    decreases |feed|
    ensures RecordRun(last, feed).Stopped? <==> exists i :: 0 <= i < |feed| && feed[i].pose == DoubleTap
    ensures RecordRun(last, feed).Stopped? ==>
      var n := RecordRun(last, feed).polls;
      feed[n - 1].pose == DoubleTap && forall j :: 0 <= j < n - 1 ==> feed[j].pose != DoubleTap
  {
    if feed != [] && feed[0].pose != DoubleTap {
      var next := if feed[0].angle == last then last else feed[0].angle;
      RecordStopsAtFirstDoubleTap(next, feed[1..]);
      if exists i :: 0 <= i < |feed| && feed[i].pose == DoubleTap {
        var i :| 0 <= i < |feed| && feed[i].pose == DoubleTap;
        assert feed[1..][i - 1].pose == DoubleTap;
      }
      if RecordRun(last, feed).Stopped? {
        var n := RecordRun(last, feed).polls;
        assert feed[n - 1] == feed[1..][n - 2];
        forall j | 0 <= j < n - 1 ensures feed[j].pose != DoubleTap {
          if j > 0 { assert feed[j] == feed[1..][j - 1]; }
        }
      }
    }
  }

  /** The kept samples are the samples polled before the double tap, compressed:
      a sample is kept iff it differs from the sample polled just before it. */
  lemma {:induction false} RecordIsCompression(last: EulerAngle, feed: seq<Observation>)
    decreases |feed|
    requires RecordRun(last, feed).Stopped?
    ensures var r := RecordRun(last, feed);
      r.values == Compress(last, Angles(feed[..r.polls - 1]))
  {
    var r := RecordRun(last, feed);
    if feed[0].pose != DoubleTap {
      RecordIsCompression(feed[0].angle, feed[1..]);
      var n := r.polls;
      var xs := Angles(feed[..n - 1]);
      assert xs[0] == feed[0].angle;
      assert xs[1..] == Angles(feed[1..][..n - 2]);
    } else {
      assert Angles(feed[..0]) == [];
    }
  }

  lemma {:induction false} CompressNoRepeats(prev: EulerAngle, xs: seq<EulerAngle>)
    decreases |xs|
    ensures NoRepeats(prev, Compress(prev, xs))
  {
    if xs != [] {
      CompressNoRepeats(xs[0], xs[1..]);
      var tail := Compress(xs[0], xs[1..]);
      var c := Compress(prev, xs);
      if xs[0] != prev {
        assert c == [xs[0]] + tail;
        forall i | 0 < i < |c| ensures c[i] != c[i - 1] {
          assert c[i] == tail[i - 1];
          assert c[i - 1] == if i == 1 then xs[0] else tail[i - 2];
        }
      } else {
        assert c == tail;
      }
    }
  }

  /** No two neighbouring samples of a recording are equal, and an opening
      sample equal to the starting value is never kept. */
  lemma RecordNoRepeats(last: EulerAngle, feed: seq<Observation>)
    requires RecordRun(last, feed).Stopped?
    ensures NoRepeats(last, RecordRun(last, feed).values)
  {
    RecordIsCompression(last, feed);
    CompressNoRepeats(last, Angles(feed[..RecordRun(last, feed).polls - 1]));
  }

  /** Samples that already differ from their predecessors are all kept, in order. */
  lemma {:induction false} CompressKeepsDistinct(prev: EulerAngle, xs: seq<EulerAngle>)
    requires NoRepeats(prev, xs)
    decreases |xs|
    ensures Compress(prev, xs) == xs
  {
    if xs != [] {
      assert NoRepeats(xs[0], xs[1..]) by {
        forall i | 0 < i < |xs[1..]| ensures xs[1..][i] != xs[1..][i - 1] {
          assert xs[1..][i] == xs[i + 1];
        }
      }
      CompressKeepsDistinct(xs[0], xs[1..]);
      assert xs[0] != prev;
      assert [xs[0]] + xs[1..] == xs;
    }
  }

  /** Polling a sample twice in a row keeps it once: the repeat changes nothing. */
  lemma {:induction false} CompressIgnoresRepeat(prev: EulerAngle, xs: seq<EulerAngle>, i: nat)
    requires i < |xs|
    decreases i
    ensures Compress(prev, xs[..i + 1] + xs[i..]) == Compress(prev, xs)
  {
    var ys := xs[..i + 1] + xs[i..];
    if i == 0 {
      assert ys == [xs[0]] + xs;
      assert ys[1..] == xs;
      assert Compress(xs[0], xs) == Compress(xs[0], xs[1..]);
    } else {
      assert ys[0] == xs[0];
      assert ys[1..] == xs[1..][..i] + xs[1..][i - 1..];
      CompressIgnoresRepeat(xs[0], xs[1..], i - 1);
    }
  }

  /** A feed of samples each differing from the one before (the first from the
      starting value), closed by a double tap, is recorded exactly. */
  lemma RecordDistinctSamples(feed: seq<Observation>, n: nat)
    requires n < |feed| && feed[n].pose == DoubleTap
    requires forall j :: 0 <= j < n ==> feed[j].pose != DoubleTap
    requires NoRepeats(Origin, Angles(feed[..n]))
    ensures RecordRun(Origin, feed) == Stopped(Angles(feed[..n]), n + 1)
  {
    RecordStopsAtFirstDoubleTap(Origin, feed);
    var r := RecordRun(Origin, feed);
    assert r.Stopped?;
    assert r.polls == n + 1;
    RecordIsCompression(Origin, feed);
    CompressKeepsDistinct(Origin, Angles(feed[..n]));
  }

  class GestureRecorder {
    /** The template being, or last, recorded. */
    var lastGesture: Gesture

    ghost predicate Valid()
      reads this
    {
      NoRepeats(Origin, lastGesture.values)
    }

    constructor()
      ensures Valid() && lastGesture == Gesture([])
    {
      lastGesture := Gesture([]);
    }

    /** `reset()`: starts a fresh, empty template. */
    method Reset()
      modifies this
      ensures Valid() && lastGesture == Gesture([])
    {
      lastGesture := Gesture([]);
    }

    /** `record()`: resets, then polls until a double tap, keeping each sample
        the filter accepts; gives the number of polls it took. */
    method Record(feed: seq<Observation>) returns (polls: nat)
      requires RecordRun(Origin, feed).Stopped?
      modifies this
      ensures Valid()
      ensures lastGesture.values == RecordRun(Origin, feed).values
      ensures polls == RecordRun(Origin, feed).polls
    {
      Reset();
      ghost var total := RecordRun(Origin, feed);
      var lastAngle := Origin;
      var minorChange := false;
      polls := 0;
      while true
        invariant !minorChange
        invariant Resumes(lastGesture.values, lastAngle, feed, polls, total)
        decreases |feed| - polls
      {
        RecordLoopStep(lastGesture.values, lastAngle, feed, polls, total);
        var observation := feed[polls];
        polls := polls + 1;
        if observation.pose == DoubleTap {
          break;
        }
        var verdict := Filter(lastAngle, minorChange, observation.angle);
        minorChange := verdict.minorChange;
        if !verdict.accept {
          continue;
        }
        lastGesture := Gesture(lastGesture.values + [observation.angle]);
        lastAngle := observation.angle;
      }
      RecordNoRepeats(Origin, feed);
    }

    /** `getGesture()`: the template of the last recording, whose neighbouring
        samples all differ. */
    function GetGesture(): (g: Gesture)
      reads this
      requires Valid()
      ensures NoRepeats(Origin, g.values)
    {
      lastGesture
    }
  }
}
