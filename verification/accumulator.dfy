/**
  The segment accumulator of `detect_and_save_segments`: a two-state machine
  (idle / inside a segment) folded over the per-frame `has_target` signal,
  and the end-of-stream finalisation.
 */
module Accumulator {
  import opened Types

  /** `in_segment` together with `segment_start_time`. */
  datatype Phase = Idle | Active(start: real)

  /** The loop state: the phase and `all_segments` as built so far. */
  datatype Acc = Acc(phase: Phase, segments: seq<Segment>)

  const Initial: Acc := Acc(Idle, [])

  /**
    One frame. A false-to-true edge opens a segment at the frame's time; a
    true-to-false edge closes it at the time of the first false frame, and
    keeps it only when it lasted at least `minDur`. The phase is reset on
    every true-to-false edge, whether or not the segment was kept.
   */
  function Step(acc: Acc, x: Sample, minDur: real): (r: Acc)
    ensures r.phase.Active? <==> x.hasTarget
    ensures acc.segments <= r.segments
    ensures |r.segments| <= |acc.segments| + 1
    ensures |r.segments| == |acc.segments| + 1 <==>
              acc.phase.Active? && !x.hasTarget && x.time - acc.phase.start >= minDur
    ensures |r.segments| == |acc.segments| + 1 ==>
              r.segments[|acc.segments|] == Segment(acc.phase.start, x.time)
    ensures r.phase.Active? && acc.phase.Active? ==> r.phase.start == acc.phase.start
    ensures r.phase.Active? && acc.phase.Idle? ==> r.phase.start == x.time
  {
    match acc.phase
    case Idle =>
      if x.hasTarget then Acc(Active(x.time), acc.segments) else acc
    case Active(start) =>
      if x.hasTarget then acc
      else if x.time - start >= minDur then Acc(Idle, acc.segments + [Segment(start, x.time)])
      else Acc(Idle, acc.segments)
  }

  /** The state after the frame loop has processed every sample of `s`. */
  function Accumulate(s: seq<Sample>, minDur: real): (r: Acc)
    ensures r.phase.Active? <==> |s| > 0 && s[|s| - 1].hasTarget
    ensures |r.segments| + (if r.phase.Active? then 1 else 0) <= |s|
    decreases |s|
  {
    if |s| == 0 then Initial
    else Step(Accumulate(s[..|s| - 1], minDur), s[|s| - 1], minDur)
  }

  /**
    End of stream: a segment still open is closed at `lastTime`, the time of
    the last processed frame, under the same inclusive minimum-length test.
   */
  function Finalize(acc: Acc, lastTime: real, minDur: real): (r: seq<Segment>)
    ensures acc.segments <= r
    ensures |r| == |acc.segments| + 1 <==>
              acc.phase.Active? && lastTime - acc.phase.start >= minDur
    ensures |r| <= |acc.segments| + 1
    ensures |r| == |acc.segments| + 1 ==> r[|acc.segments|] == Segment(acc.phase.start, lastTime)
  {
    match acc.phase
    case Idle => acc.segments
    case Active(start) =>
      if lastTime - start >= minDur then acc.segments + [Segment(start, lastTime)]
      else acc.segments
  }

  /**
    The final `all_segments` list for the processed samples `s`: the closed
    segments, then at most the segment still open at the end, closed at the
    last sample's time. Never more segments than samples.
   */
  function Segments(s: seq<Sample>, minDur: real): (r: seq<Segment>)
    ensures |r| <= |s|
    ensures |s| > 0 ==> Accumulate(s, minDur).segments <= r
    ensures |s| > 0 && |r| > |Accumulate(s, minDur).segments| ==>
              && s[|s| - 1].hasTarget
              && r == Accumulate(s, minDur).segments + [Segment(Accumulate(s, minDur).phase.start, s[|s| - 1].time)]
  {
    if |s| == 0 then [] else Finalize(Accumulate(s, minDur), s[|s| - 1].time, minDur)
  }

  /** The time of frame `idx` at `fps` frames per second. */
  function FrameTime(idx: nat, fps: real): real
    requires fps > 0.0
  {
    idx as real / fps
  }

  /** Pairs each `has_target` flag with its frame's time. */
  function FrameSamples(signal: seq<bool>, fps: real): (s: seq<Sample>)
    requires fps > 0.0
    ensures |s| == |signal|
    ensures forall i :: 0 <= i < |s| ==> s[i] == Sample(signal[i], FrameTime(i, fps))
  {
    seq(|signal|, i requires 0 <= i < |signal| => Sample(signal[i], FrameTime(i, fps)))
  }

  lemma FrameTimeMonotone(i: nat, j: nat, fps: real)
    requires fps > 0.0
    requires i < j
    ensures 0.0 <= FrameTime(i, fps) < FrameTime(j, fps)
  {
    var a, b := FrameTime(i, fps), FrameTime(j, fps);
    assert a * fps == i as real;
    assert b * fps == j as real;
    assert (b - a) * fps == (j - i) as real;
  }

  /** Frame times start at zero and strictly increase. */
  lemma FrameSamplesIncreasing(signal: seq<bool>, fps: real)
    requires fps > 0.0
    ensures IncreasingTimes(FrameSamples(signal, fps))
    ensures |signal| > 0 ==> FrameSamples(signal, fps)[0].time == 0.0
  {
    var s := FrameSamples(signal, fps);
    forall i, j | 0 <= i < j < |s|
      ensures s[i].time < s[j].time
    {
      FrameTimeMonotone(i, j, fps);
    }
  }

  /**
    The loop invariant of the accumulator when times increase: the segments
    built so far are ordered, each at least `minDur` long, all inside the
    span of the processed samples, and an open segment starts after the last
    closed one ended.
   */
  predicate Consistent(s: seq<Sample>, acc: Acc, minDur: real)
    requires |s| > 0
  {
    && Ordered(acc.segments)
    && AllAtLeast(acc.segments, minDur)
    && Within(acc.segments, s[0].time, s[|s| - 1].time)
    && (acc.phase.Active? ==>
          && s[0].time <= acc.phase.start <= s[|s| - 1].time
          && (|acc.segments| > 0 ==> acc.segments[|acc.segments| - 1].end < acc.phase.start))
  }

  lemma {:induction false} AccumulateConsistent(s: seq<Sample>, minDur: real)
    requires |s| > 0
    requires IncreasingTimes(s)
    ensures Consistent(s, Accumulate(s, minDur), minDur)
    decreases |s|
  {
    var q := s[..|s| - 1];
    var x := s[|s| - 1];
    var acc := Accumulate(q, minDur);
    if |q| == 0 {
      assert acc == Initial;
    } else {
      assert IncreasingTimes(q);
      AccumulateConsistent(q, minDur);
      assert q[0] == s[0];
      assert q[|q| - 1].time < x.time;
    }
  }

  /** Every closed segment passed the minimum-length test, whatever the sample times. */
  lemma {:induction false} AccumulateAtLeast(s: seq<Sample>, minDur: real)
    ensures AllAtLeast(Accumulate(s, minDur).segments, minDur)
    decreases |s|
  {
    if |s| > 0 {
      AccumulateAtLeast(s[..|s| - 1], minDur);
    }
  }

  /**
    Every reported segment lasts at least `minDur`, for any samples: the
    inclusive test guards both the mid-stream close and the final one.
   */
  lemma SegmentsAtLeast(s: seq<Sample>, minDur: real)
    ensures AllAtLeast(Segments(s, minDur), minDur)
  {
    AccumulateAtLeast(s, minDur);
  }

  /**
    The final segment list is ordered and disjoint, every segment is at
    least `minDur` long, and all lie within the span of the processed frames.
   */
  lemma SegmentsOrdered(s: seq<Sample>, minDur: real)
    requires |s| > 0
    requires IncreasingTimes(s)
    ensures Ordered(Segments(s, minDur))
    ensures AllAtLeast(Segments(s, minDur), minDur)
    ensures Within(Segments(s, minDur), s[0].time, s[|s| - 1].time)
  {
    AccumulateConsistent(s, minDur);
  }

  /**
    Segments, once closed, are never revised: the segments already closed
    after any prefix of the stream are a prefix of the final list. (A run
    stopped early also finalises the segment it has open at that point,
    which the full run may close later and longer; see `EarlyStopReport`.)
   */
  lemma {:induction false} ClosedSegmentsStable(s: seq<Sample>, k: nat, minDur: real)
    requires k <= |s|
    ensures Accumulate(s[..k], minDur).segments <= Accumulate(s, minDur).segments
    ensures Accumulate(s[..k], minDur).segments <= Segments(s, minDur)
    decreases |s| - k
  {
    if k < |s| {
      var n := |s| - 1;
      ClosedSegmentsStable(s[..n], k, minDur);
      assert s[..n][..k] == s[..k];
    } else {
      assert s[..k] == s;
    }
  }

  /** Processing one more sample is one more `Step`. */
  lemma AccumulateSnoc(s: seq<Sample>, k: nat, minDur: real)
    requires k < |s|
    ensures Accumulate(s[..k + 1], minDur) == Step(Accumulate(s[..k], minDur), s[k], minDur)
  {
    assert s[..k + 1][..k] == s[..k];
  }

  /**
    The `for frame_idx in range(total_frames)` loop over the processed frames
    with the mutable `in_segment`, `segment_start_time` and `all_segments`,
    followed by the end-of-stream finalisation.
   */
  method FrameLoop(signal: seq<bool>, fps: real, minDur: real) returns (allSegments: seq<Segment>)
    requires fps > 0.0
    ensures allSegments == Segments(FrameSamples(signal, fps), minDur)
  {
    ghost var s := FrameSamples(signal, fps);
    allSegments := [];
    var inSegment := false;
    var segmentStartTime := 0.0;
    var currentTimeSec := 0.0;
    var frameIdx := 0;
    while frameIdx < |signal|
      invariant 0 <= frameIdx <= |signal|
      invariant Accumulate(s[..frameIdx], minDur)
                  == Acc(if inSegment then Active(segmentStartTime) else Idle, allSegments)
      invariant frameIdx > 0 ==> currentTimeSec == s[frameIdx - 1].time
    {
      currentTimeSec := frameIdx as real / fps;
      var hasTarget := signal[frameIdx];
      ghost var before := Acc(if inSegment then Active(segmentStartTime) else Idle, allSegments);
      assert s[frameIdx] == Sample(hasTarget, currentTimeSec);
      AccumulateSnoc(s, frameIdx, minDur);
      if hasTarget && !inSegment {
        segmentStartTime := currentTimeSec;
        inSegment := true;
      } else if !hasTarget && inSegment {
        var segmentEndTime := currentTimeSec;
        if segmentEndTime - segmentStartTime >= minDur {
          allSegments := allSegments + [Segment(segmentStartTime, segmentEndTime)];
        }
        inSegment := false;
      }
      assert Acc(if inSegment then Active(segmentStartTime) else Idle, allSegments)
             == Step(before, Sample(hasTarget, currentTimeSec), minDur);
      frameIdx := frameIdx + 1;
    }
    assert s[..|signal|] == s;
    if |signal| == 0 {
      return;
    }
    assert Segments(s, minDur) == Finalize(Accumulate(s, minDur), currentTimeSec, minDur);
    if inSegment {
      if currentTimeSec - segmentStartTime >= minDur {
        allSegments := allSegments + [Segment(segmentStartTime, currentTimeSec)];
      }
    }
  }
}
