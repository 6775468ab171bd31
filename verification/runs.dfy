/**
  An independent, declarative description of the accumulator's output in
  terms of maximal runs of frames with a target, and the proof that the fold
  of `Accumulator` produces exactly that.
 */
module Runs {
  import opened Types
  import opened Accumulator

  /**
    Samples `i .. j-1` form a maximal run of target frames: all of them have
    a target, the frame before `i` (if any) does not, and the frame at `j`
    (if any) does not. A run opens on a false-to-true edge only.
   */
  predicate RunAt(s: seq<Sample>, i: int, j: int) {
    && 0 <= i < j <= |s|
    && (forall k :: i <= k < j ==> s[k].hasTarget)
    && (i == 0 || !s[i - 1].hasTarget)
    && (j == |s| || !s[j].hasTarget)
  }

  /**
    The interval a run stands for: from its first frame's time to the time
    of the first following frame without a target, or, for a run still open
    at end of stream, to the last frame's time.
   */
  function RunSegment(s: seq<Sample>, i: int, j: int): Segment
    requires 0 <= i < j <= |s|
  {
    Segment(s[i].time, if j < |s| then s[j].time else s[|s| - 1].time)
  }

  /** A maximal run long enough to be recorded. */
  predicate Kept(s: seq<Sample>, i: int, j: int, minDur: real) {
    RunAt(s, i, j) && RunSegment(s, i, j).Length() >= minDur
  }

  /** A run closed by a frame without a target inside `s`. */
  predicate ClosedRun(s: seq<Sample>, i: int, j: int, minDur: real) {
    RunAt(s, i, j) && j < |s| && s[j].time - s[i].time >= minDur
  }

  /** Where the run that is open at the end of `s` began. */
  function OpenRunStart(s: seq<Sample>): (r: nat)
    requires |s| > 0 && s[|s| - 1].hasTarget
    ensures r < |s|
    ensures forall k :: r <= k < |s| ==> s[k].hasTarget
    ensures r == 0 || !s[r - 1].hasTarget
    decreases |s|
  {
    if |s| == 1 || !s[|s| - 2].hasTarget then |s| - 1
    else OpenRunStart(s[..|s| - 1])
  }

  /** A run reaching the end of `s` starts exactly at `OpenRunStart(s)`. */
  lemma OpenRunUnique(s: seq<Sample>, i: nat)
    requires i < |s|
    requires forall k :: i <= k < |s| ==> s[k].hasTarget
    requires i == 0 || !s[i - 1].hasTarget
    ensures i == OpenRunStart(s)
  {
  }

  /** Every closed segment is a long-enough run closed inside `s`. */
  ghost predicate ClosedSound(s: seq<Sample>, acc: Acc, minDur: real) {
    forall x :: x in acc.segments ==>
      exists i, j :: ClosedRun(s, i, j, minDur) && x == Segment(s[i].time, s[j].time)
  }

  /** Every long-enough run closed inside `s` is a closed segment. */
  ghost predicate ClosedComplete(s: seq<Sample>, acc: Acc, minDur: real) {
    forall i, j :: ClosedRun(s, i, j, minDur) ==> Segment(s[i].time, s[j].time) in acc.segments
  }

  /** An open segment started at the first frame of the run open at the end of `s`. */
  ghost predicate OpenTracked(s: seq<Sample>, acc: Acc) {
    acc.phase.Active? ==>
      |s| > 0 && s[|s| - 1].hasTarget && acc.phase.start == s[OpenRunStart(s)].time
  }

  /**
    What the loop state means for the processed samples `s`: the closed
    segments are exactly the long-enough runs closed inside `s`, and an open
    segment started at the first frame of the run open at the end of `s`.
   */
  ghost predicate Represents(s: seq<Sample>, acc: Acc, minDur: real) {
    ClosedSound(s, acc, minDur) && ClosedComplete(s, acc, minDur) && OpenTracked(s, acc)
  }

  /** Runs closed before the last frame are the same in `s` and in `s` minus its last frame. */
  lemma ClosedRunOfPrefix(s: seq<Sample>, i: int, j: int, minDur: real)
    requires |s| > 0
    requires j < |s| - 1
    ensures ClosedRun(s, i, j, minDur) <==> ClosedRun(s[..|s| - 1], i, j, minDur)
  {
    var q := s[..|s| - 1];
    if ClosedRun(s, i, j, minDur) {
      assert forall k :: i <= k < j ==> q[k] == s[k];
    }
    if ClosedRun(q, i, j, minDur) {
      assert forall k :: i <= k < j ==> q[k] == s[k];
    }
  }

  /** A run closed by the last frame of `s` is the run open just before it. */
  lemma ClosedRunAtEnd(s: seq<Sample>, i: nat, minDur: real)
    requires |s| > 1
    requires RunAt(s, i, |s| - 1)
    ensures s[|s| - 2].hasTarget
    ensures i == OpenRunStart(s[..|s| - 1])
  {
    var q := s[..|s| - 1];
    assert forall k :: i <= k < |q| ==> q[k] == s[k];
    OpenRunUnique(q, i);
  }

  lemma ClosedSoundStep(s: seq<Sample>, prev: Acc, minDur: real)
    requires |s| > 0
    requires ClosedSound(s[..|s| - 1], prev, minDur) && OpenTracked(s[..|s| - 1], prev)
    ensures ClosedSound(s, Step(prev, s[|s| - 1], minDur), minDur)
  {
    var n := |s| - 1;
    var q := s[..n];
    var x := s[n];
    var acc := Step(prev, x, minDur);
    forall y | y in acc.segments
      ensures exists i, j :: ClosedRun(s, i, j, minDur) && y == Segment(s[i].time, s[j].time)
    {
      if y in prev.segments {
        var i, j :| ClosedRun(q, i, j, minDur) && y == Segment(q[i].time, q[j].time);
        ClosedRunOfPrefix(s, i, j, minDur);
        assert ClosedRun(s, i, j, minDur);
      } else {
        var r := OpenRunStart(q);
        assert y == Segment(prev.phase.start, x.time);
        assert forall k :: r <= k < n ==> q[k] == s[k];
        assert RunAt(s, r, n);
        assert ClosedRun(s, r, n, minDur);
      }
    }
  }

  lemma ClosedCompleteStep(s: seq<Sample>, prev: Acc, minDur: real)
    requires |s| > 0
    requires ClosedComplete(s[..|s| - 1], prev, minDur) && OpenTracked(s[..|s| - 1], prev)
    requires prev.phase.Active? <==> |s| > 1 && s[|s| - 2].hasTarget
    ensures ClosedComplete(s, Step(prev, s[|s| - 1], minDur), minDur)
  {
    var n := |s| - 1;
    var q := s[..n];
    var acc := Step(prev, s[n], minDur);
    forall i, j | ClosedRun(s, i, j, minDur)
      ensures Segment(s[i].time, s[j].time) in acc.segments
    {
      if j < n {
        ClosedRunOfPrefix(s, i, j, minDur);
        assert Segment(q[i].time, q[j].time) in prev.segments;
      } else {
        ClosedRunAtEnd(s, i, minDur);
        assert |acc.segments| == |prev.segments| + 1;
      }
    }
  }

  lemma OpenTrackedStep(s: seq<Sample>, prev: Acc, minDur: real)
    requires |s| > 0
    requires OpenTracked(s[..|s| - 1], prev)
    requires prev.phase.Active? <==> |s| > 1 && s[|s| - 2].hasTarget
    ensures OpenTracked(s, Step(prev, s[|s| - 1], minDur))
  {
    var n := |s| - 1;
    var q := s[..n];
    var acc := Step(prev, s[n], minDur);
    if acc.phase.Active? {
      if prev.phase.Active? {
        assert s[n - 1] == q[n - 1];
        var r := OpenRunStart(q);
        assert forall k :: r <= k < |s| ==> s[k].hasTarget;
        assert r == 0 || !s[r - 1].hasTarget;
        OpenRunUnique(s, r);
      } else {
        assert n == 0 || !s[n - 1].hasTarget;
        OpenRunUnique(s, n);
      }
    }
  }

  lemma {:induction false} AccumulateRepresents(s: seq<Sample>, minDur: real)
    ensures Represents(s, Accumulate(s, minDur), minDur)
    decreases |s|
  {
    if |s| == 0 {
      return;
    }
    var n := |s| - 1;
    var prev := Accumulate(s[..n], minDur);
    AccumulateRepresents(s[..n], minDur);
    assert Accumulate(s, minDur) == Step(prev, s[n], minDur);
    assert prev.phase.Active? <==> |s| > 1 && s[|s| - 2].hasTarget;
    ClosedSoundStep(s, prev, minDur);
    ClosedCompleteStep(s, prev, minDur);
    OpenTrackedStep(s, prev, minDur);
  }

  /** Every recorded segment is a kept maximal run (soundness). */
  lemma SegmentsAreKeptRuns(s: seq<Sample>, minDur: real)
    ensures forall x :: x in Segments(s, minDur) ==>
              exists i, j :: Kept(s, i, j, minDur) && x == RunSegment(s, i, j)
  {
    if |s| == 0 {
      return;
    }
    var acc := Accumulate(s, minDur);
    AccumulateRepresents(s, minDur);
    forall x | x in Segments(s, minDur)
      ensures exists i, j :: Kept(s, i, j, minDur) && x == RunSegment(s, i, j)
    {
      if x in acc.segments {
        var i, j :| ClosedRun(s, i, j, minDur) && x == Segment(s[i].time, s[j].time);
        assert Kept(s, i, j, minDur);
      } else {
        var r := OpenRunStart(s);
        assert RunAt(s, r, |s|);
        assert x == RunSegment(s, r, |s|);
      }
    }
  }

  /** Every kept maximal run is recorded (completeness). */
  lemma KeptRunsAreSegments(s: seq<Sample>, minDur: real)
    ensures forall i, j :: Kept(s, i, j, minDur) ==> RunSegment(s, i, j) in Segments(s, minDur)
  {
    var acc := Accumulate(s, minDur);
    AccumulateRepresents(s, minDur);
    forall i, j | Kept(s, i, j, minDur)
      ensures RunSegment(s, i, j) in Segments(s, minDur)
    {
      if j < |s| {
        assert ClosedRun(s, i, j, minDur);
      } else {
        OpenRunUnique(s, i);
      }
    }
  }

  /**
    What a run stopped after `k` frames reports (a read failure or the quit
    key): the segments already closed, which the full run also reports in
    the same places, followed by at most the run open at the stop, closed
    at the stop frame's time.
   */
  ghost predicate StoppedReport(s: seq<Sample>, k: nat, minDur: real)
    requires 0 < k <= |s|
  {
    var closed := Accumulate(s[..k], minDur).segments;
    && closed <= Segments(s, minDur)
    && (|| Segments(s[..k], minDur) == closed
        || (&& s[k - 1].hasTarget
            && Segments(s[..k], minDur)
               == closed + [Segment(s[OpenRunStart(s[..k])].time, s[k - 1].time)]))
  }

  lemma EarlyStopReport(s: seq<Sample>, k: nat, minDur: real)
    requires 0 < k <= |s|
    ensures StoppedReport(s, k, minDur)
  {
    var p := s[..k];
    ClosedSegmentsStable(s, k, minDur);
    AccumulateRepresents(p, minDur);
    assert p[k - 1] == s[k - 1];
  }

  /** Distinct kept runs give distinct intervals, so no run is counted twice. */
  lemma RunsDistinct(s: seq<Sample>, i: int, j: int, i': int, j': int, minDur: real)
    requires IncreasingTimes(s)
    requires Kept(s, i, j, minDur) && Kept(s, i', j', minDur)
    requires RunSegment(s, i, j) == RunSegment(s, i', j')
    ensures i == i' && j == j'
  {
  }

  /** In an ordered list every segment ends before any later one starts. */
  lemma {:induction false} OrderedTransitive(a: seq<Segment>, i: int, j: int)
    requires Ordered(a)
    requires 0 <= i < j < |a|
    ensures a[i].end < a[j].start
    decreases j - i
  {
    if i + 1 < j {
      OrderedTransitive(a, i, j - 1);
    }
  }

  lemma HeadIn(b: seq<Segment>)
    ensures |b| > 0 ==> b[0] in b
  {
  }

  /** An ordered list of segments is determined by its elements. */
  lemma {:induction false} OrderedDeterminedByElements(a: seq<Segment>, b: seq<Segment>)
    requires Ordered(a) && Ordered(b)
    requires forall x :: x in a <==> x in b
    ensures a == b
    decreases |a|
  {
    if |a| == 0 {
      HeadIn(b);
      return;
    }
    assert a[0] in a;
    assert |b| > 0;
    assert b[0] in b;
    var k :| 0 <= k < |a| && a[k] == b[0];
    var m :| 0 <= m < |b| && b[m] == a[0];
    if k > 0 {
      OrderedTransitive(a, 0, k);
      if m > 0 {
        OrderedTransitive(b, 0, m);
      }
      assert false;
    }
    forall x
      ensures x in a[1..] <==> x in b[1..]
    {
      if x in a[1..] {
        var p :| 1 <= p < |a| && a[p] == x;
        OrderedTransitive(a, 0, p);
        assert x in b;
        assert x != b[0];
      }
      if x in b[1..] {
        var p :| 1 <= p < |b| && b[p] == x;
        OrderedTransitive(b, 0, p);
        assert x in a;
        assert x != a[0];
      }
    }
    OrderedDeterminedByElements(a[1..], b[1..]);
    assert a == [a[0]] + a[1..];
    assert b == [b[0]] + b[1..];
  }

  /**
    The final segment list is THE time-ordered list of the intervals of the
    maximal runs that last at least `minDur`: any ordered list holding
    exactly those intervals equals it.
   */
  lemma SegmentsUnique(s: seq<Sample>, minDur: real, expected: seq<Segment>)
    requires IncreasingTimes(s)
    requires Ordered(expected)
    requires forall x :: x in expected <==>
               exists i, j :: Kept(s, i, j, minDur) && x == RunSegment(s, i, j)
    ensures Segments(s, minDur) == expected
  {
    SegmentsAreKeptRuns(s, minDur);
    KeptRunsAreSegments(s, minDur);
    if |s| > 0 {
      SegmentsOrdered(s, minDur);
    }
    OrderedDeterminedByElements(Segments(s, minDur), expected);
  }
}
