/**
  Shared data model of the detection-to-segment pipeline of `cut.py`.

  A frame is reduced to a `Sample`: whether the detector saw a target class in
  it and the frame's presentation time in seconds. Times are exact reals; the
  source computes them as floats.
 */
module Types {

  /** One processed frame: the `has_target` flag and `frame_idx / fps`. */
  datatype Sample = Sample(hasTarget: bool, time: real)

  /** A closed time interval `[start, end]` in seconds. */
  datatype Segment = Segment(start: real, end: real) {
    function Length(): real {
      end - start
    }
  }

  /** Fatal configuration errors that abort a run before any output. */
  datatype Error =
    | CannotOpenVideo
    | ZeroFrameRate
    | NoTargetClass(targets: seq<string>)

  datatype Result<+T> = Success(value: T) | Failure(error: Error) {
    predicate IsFailure() {
      Failure?
    }

    function PropagateFailure<U>(): Result<U>
      requires Failure?
    {
      Failure(error)
    }

    function Extract(): T
      requires Success?
    {
      value
    }
  }

  /** Sample times strictly increase along the stream. */
  predicate IncreasingTimes(s: seq<Sample>) {
    forall i, j :: 0 <= i < j < |s| ==> s[i].time < s[j].time
  }

  /** Every segment is at least `minDur` long. */
  predicate AllAtLeast(segs: seq<Segment>, minDur: real) {
    forall k :: 0 <= k < |segs| ==> segs[k].Length() >= minDur
  }

  /**
    Segments are non-degenerate intervals, listed in time order, each one
    ending strictly before the next one starts.
   */
  predicate Ordered(segs: seq<Segment>) {
    && (forall k :: 0 <= k < |segs| ==> segs[k].start <= segs[k].end)
    && (forall k :: 0 <= k < |segs| - 1 ==> segs[k].end < segs[k + 1].start)
  }

  /** Every segment lies inside `[lo, hi]`. */
  predicate Within(segs: seq<Segment>, lo: real, hi: real) {
    forall k :: 0 <= k < |segs| ==> lo <= segs[k].start && segs[k].end <= hi
  }
}
