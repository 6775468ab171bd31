/**
  Concrete frame signals and the segment lists they produce, at 10 frames
  per second. Each is derived from the run characterisation, not by
  unfolding the fold frame by frame.
 */
module Scenarios {
  import opened Types
  import opened Accumulator
  import opened Runs
  import opened Export

  /** A signal that is true exactly on frames `a .. b-1`. */
  function Block(n: nat, a: nat, b: nat): (signal: seq<bool>)
    ensures |signal| == n
    ensures forall i :: 0 <= i < n ==> signal[i] == (a <= i < b)
  {
    seq(n, i requires 0 <= i < n => a <= i < b)
  }

  /** A signal that is true on exactly one block has exactly one maximal run. */
  lemma OneBlockRuns(s: seq<Sample>, a: nat, b: nat)
    requires a < b <= |s|
    requires forall k :: 0 <= k < |s| ==> (s[k].hasTarget <==> a <= k < b)
    ensures forall i, j :: RunAt(s, i, j) <==> i == a && j == b
  {
    forall i, j | RunAt(s, i, j)
      ensures i == a && j == b
    {
      assert s[i].hasTarget;
      assert s[j - 1].hasTarget;
    }
  }

  /** Ten idle frames, twenty with a target, ten idle: one segment from 1.0 s to 3.0 s. */
  lemma TwentyFrameRun()
    ensures Segments(FrameSamples(Block(40, 10, 30), 10.0), 0.5) == [Segment(1.0, 3.0)]
  {
    var s := FrameSamples(Block(40, 10, 30), 10.0);
    FrameSamplesIncreasing(Block(40, 10, 30), 10.0);
    OneBlockRuns(s, 10, 30);
    assert RunSegment(s, 10, 30) == Segment(1.0, 3.0);
    SegmentsUnique(s, 0.5, [Segment(1.0, 3.0)]);
  }

  /** A one-frame blip (0.1 s) is shorter than 0.5 s and is dropped. */
  lemma BlipDropped()
    ensures Segments(FrameSamples(Block(40, 20, 21), 10.0), 0.5) == []
  {
    var s := FrameSamples(Block(40, 20, 21), 10.0);
    FrameSamplesIncreasing(Block(40, 20, 21), 10.0);
    OneBlockRuns(s, 20, 21);
    assert RunSegment(s, 20, 21).Length() < 0.5;
    SegmentsUnique(s, 0.5, []);
  }

  /** A run lasting exactly the minimum is kept: the test is inclusive. */
  lemma ExactMinimumKept()
    ensures Segments(FrameSamples(Block(20, 5, 10), 10.0), 0.5) == [Segment(0.5, 1.0)]
  {
    var s := FrameSamples(Block(20, 5, 10), 10.0);
    FrameSamplesIncreasing(Block(20, 5, 10), 10.0);
    OneBlockRuns(s, 5, 10);
    assert RunSegment(s, 5, 10) == Segment(0.5, 1.0);
    SegmentsUnique(s, 0.5, [Segment(0.5, 1.0)]);
  }

  /** One frame less than the minimum is dropped. */
  lemma BelowMinimumDropped()
    ensures Segments(FrameSamples(Block(20, 5, 9), 10.0), 0.5) == []
  {
    var s := FrameSamples(Block(20, 5, 9), 10.0);
    FrameSamplesIncreasing(Block(20, 5, 9), 10.0);
    OneBlockRuns(s, 5, 9);
    assert RunSegment(s, 5, 9).Length() < 0.5;
    SegmentsUnique(s, 0.5, []);
  }

  /**
    A run still open at the end of the stream closes at the LAST frame's
    time (0.9 s for ten frames), not one frame period later.
   */
  lemma OpenAtEndClosesAtLastFrame()
    ensures Segments(FrameSamples(Block(10, 5, 10), 10.0), 0.3) == [Segment(0.5, 0.9)]
  {
    var s := FrameSamples(Block(10, 5, 10), 10.0);
    FrameSamplesIncreasing(Block(10, 5, 10), 10.0);
    OneBlockRuns(s, 5, 10);
    assert RunSegment(s, 5, 10) == Segment(0.5, 0.9);
    SegmentsUnique(s, 0.3, [Segment(0.5, 0.9)]);
  }

  /**
    With a zero minimum, a target seen only on the last frame is recorded
    as a zero-length segment: the end-of-stream close uses the last frame's
    own time, so `end > start` does not hold for it.
   */
  lemma LastFrameOnlyGivesZeroLength()
    ensures Segments(FrameSamples(Block(10, 9, 10), 10.0), 0.0) == [Segment(0.9, 0.9)]
  {
    var s := FrameSamples(Block(10, 9, 10), 10.0);
    FrameSamplesIncreasing(Block(10, 9, 10), 10.0);
    OneBlockRuns(s, 9, 10);
    assert RunSegment(s, 9, 10) == Segment(0.9, 0.9);
    SegmentsUnique(s, 0.0, [Segment(0.9, 0.9)]);
  }

  /**
    A run stopped early finalises the segment it has open at the stop frame.
    Three target frames then an idle one, with no minimum: stopping after
    two frames reports (0.0 s, 0.1 s), while the full run reports
    (0.0 s, 0.3 s). So an early stop's list is not a prefix of the full list.
   */
  lemma EarlyStopClosesOpenRun()
    ensures var s := FrameSamples(Block(4, 0, 3), 10.0);
            && Segments(s[..2], 0.0) == [Segment(0.0, 0.1)]
            && Segments(s, 0.0) == [Segment(0.0, 0.3)]
  {
    var s := FrameSamples(Block(4, 0, 3), 10.0);
    FrameSamplesIncreasing(Block(4, 0, 3), 10.0);
    OneBlockRuns(s, 0, 3);
    assert RunSegment(s, 0, 3) == Segment(0.0, 0.3);
    SegmentsUnique(s, 0.0, [Segment(0.0, 0.3)]);
    var p := s[..2];
    assert IncreasingTimes(p);
    OneBlockRuns(p, 0, 2);
    assert RunSegment(p, 0, 2) == Segment(0.0, 0.1);
    SegmentsUnique(p, 0.0, [Segment(0.0, 0.1)]);
  }

  /** Target on frames 10..29 except frame 20. */
  function Gapped(): (signal: seq<bool>)
    ensures |signal| == 40
    ensures forall i :: 0 <= i < 40 ==> signal[i] == (10 <= i < 30 && i != 20)
  {
    seq(40, i requires 0 <= i < 40 => 10 <= i < 30 && i != 20)
  }

  /**
    Two runs split by a single idle frame stay two segments, and both are
    exported as separate clips although their padded ranges overlap.
   */
  lemma OneFrameGapKeepsTwoSegments()
    ensures Segments(FrameSamples(Gapped(), 10.0), 0.5) == [Segment(1.0, 2.0), Segment(2.1, 3.0)]
    ensures var clips := ExportClips([Segment(1.0, 2.0), Segment(2.1, 3.0)], [true, true], 2.0, 3.0, 4.0);
            && |clips| == 2
            && clips[0].expanded == Segment(0.0, 4.0)
            && clips[1].expanded == Segment(0.1, 4.0)
  {
    var s := FrameSamples(Gapped(), 10.0);
    FrameSamplesIncreasing(Gapped(), 10.0);
    var expected := [Segment(1.0, 2.0), Segment(2.1, 3.0)];
    forall i, j | RunAt(s, i, j)
      ensures (i == 10 && j == 20) || (i == 21 && j == 30)
    {
      assert s[i].hasTarget;
      assert s[j - 1].hasTarget;
      assert i > 0 ==> s[i - 1].hasTarget == (10 <= i - 1 < 30 && i - 1 != 20);
      assert j < |s| ==> s[j].hasTarget == (10 <= j < 30 && j != 20);
      assert !s[20].hasTarget;
    }
    assert RunAt(s, 10, 20) && RunAt(s, 21, 30);
    assert RunSegment(s, 10, 20) == expected[0];
    assert RunSegment(s, 21, 30) == expected[1];
    SegmentsUnique(s, 0.5, expected);
  }
}
