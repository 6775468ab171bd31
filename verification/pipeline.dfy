/**
  `detect_and_save_segments` end to end, with video decoding, the detector
  and the clip writer replaced by their observable results, plus the values
  `generate_summary_report` computes and the running statistics drawn on
  every frame.
 */
module Pipeline {
  import opened Types
  import opened Accumulator
  import opened Detect
  import opened Export
  import opened Stats

  /** The tunable parameters of one run. */
  datatype Config = Config(
    targets: seq<string>,
    preBuffer: real,
    postBuffer: real,
    minSegmentDuration: real)

  /**
    What the capture reports and what the loop got to see: whether the file
    opened, its frame rate and frame count (as `int(...)` of what the
    container reports, possibly negative), and the detection rows of each
    frame processed before the loop stopped (all frames, or fewer when a read
    failed or the user quit early).
   */
  datatype Video = Video(
    isOpen: bool,
    fps: real,
    totalFrames: int,
    frames: seq<seq<seq<real>>>)

  /** How many frames `range(total_frames)` visits: none for a negative count. */
  function FrameBudget(v: Video): nat {
    if v.totalFrames < 0 then 0 else v.totalFrames
  }

  /** The returned `(target_duration, saved_segments, duration)`. */
  datatype Report = Report(targetDuration: real, saved: seq<SavedClip>, duration: real)

  /**
    `total_frames / fps`: the time frame `total_frames` would have, one frame
    period after the last frame. Negative for a negative frame count.
   */
  function VideoDuration(v: Video): (d: real)
    requires v.fps > 0.0
    ensures d * v.fps == v.totalFrames as real
    ensures v.totalFrames >= 0 ==> d == FrameTime(v.totalFrames, v.fps)
    ensures v.totalFrames >= 0 <==> d >= 0.0
  {
    v.totalFrames as real / v.fps
  }

  /** The per-frame `has_target` flags of the processed frames. */
  function Signal(v: Video, ids: seq<int>): (signal: seq<bool>)
    ensures |signal| == |v.frames|
    ensures forall i :: 0 <= i < |signal| ==> signal[i] == HasTarget(v.frames[i], ids)
  {
    seq(|v.frames|, i requires 0 <= i < |v.frames| => HasTarget(v.frames[i], ids))
  }

  /** `all_segments` after the frame loop and the end-of-stream finalisation. */
  function DetectedSegments(v: Video, ids: seq<int>, minDur: real): seq<Segment>
    requires v.fps > 0.0
  {
    Segments(FrameSamples(Signal(v, ids), v.fps), minDur)
  }

  /** The export attempts' outcomes as a list, one per raw segment. */
  function Outcomes(n: nat, written: nat -> bool): (w: seq<bool>)
    ensures |w| == n
    ensures forall i :: 0 <= i < n ==> w[i] == written(i)
  {
    seq(n, i requires 0 <= i < n => written(i))
  }

  /**
    Raw segments fit in the video: ordered, each at least the minimum long,
    inside `[0, duration]`, and so their total lies in `[0, duration]`.
   */
  lemma DetectedSegmentsFit(v: Video, ids: seq<int>, minDur: real)
    requires v.fps > 0.0
    requires |v.frames| <= FrameBudget(v)
    ensures Ordered(DetectedSegments(v, ids, minDur))
    ensures AllAtLeast(DetectedSegments(v, ids, minDur), minDur)
    ensures Within(DetectedSegments(v, ids, minDur), 0.0, VideoDuration(v))
    ensures 0.0 <= TotalDuration(DetectedSegments(v, ids, minDur))
    ensures v.totalFrames >= 0 ==> TotalDuration(DetectedSegments(v, ids, minDur)) <= VideoDuration(v)
    ensures v.totalFrames <= 0 ==> DetectedSegments(v, ids, minDur) == []
  {
    var signal := Signal(v, ids);
    var s := FrameSamples(signal, v.fps);
    var segs := DetectedSegments(v, ids, minDur);
    var n := |s|;
    if n == 0 {
      return;
    }
    FrameSamplesIncreasing(signal, v.fps);
    SegmentsOrdered(s, minDur);
    TotalWithinSpan(segs);
    if n - 1 < v.totalFrames {
      FrameTimeMonotone(n - 1, v.totalFrames, v.fps);
    }
    assert s[n - 1].time <= VideoDuration(v);
    if |segs| > 0 {
      assert segs[0].start >= 0.0;
      assert segs[|segs| - 1].end <= s[n - 1].time;
    }
  }

  /**
    One run. A video that does not open, a zero frame rate (the division at
    the duration) and class names the model does not know are fatal errors,
    checked in that order. Otherwise the report carries the total duration
    of the RAW segments, the clips the writer managed to save (one attempt
    per raw segment, failures skipped) and the video duration.
   */
  function DetectAndSave(v: Video, classNames: seq<(int, string)>, cfg: Config, written: nat -> bool)
    : (r: Result<Report>)
    requires v.fps >= 0.0
    requires |v.frames| <= FrameBudget(v)
    ensures !v.isOpen ==> r == Failure(CannotOpenVideo)
    ensures v.isOpen && v.fps == 0.0 ==> r == Failure(ZeroFrameRate)
    ensures v.isOpen && v.fps > 0.0 && ResolveClassIds(classNames, cfg.targets).Failure? ==>
              r == Failure(NoTargetClass(cfg.targets))
    ensures v.isOpen && v.fps > 0.0 && ResolveClassIds(classNames, cfg.targets).Success? ==> r.Success?
    ensures r.Success? ==>
              && v.isOpen && v.fps > 0.0
              && ResolveClassIds(classNames, cfg.targets).Success?
              && var segs := DetectedSegments(v, ResolveClassIds(classNames, cfg.targets).value,
                                              cfg.minSegmentDuration);
                 && r.value.duration == VideoDuration(v)
                 && r.value.targetDuration == TotalDuration(segs)
                 && 0.0 <= r.value.targetDuration
                 && (v.totalFrames >= 0 ==> r.value.targetDuration <= r.value.duration)
                 && |r.value.saved| <= |segs|
                 && SuccessfulAttempts(r.value.saved, segs, Outcomes(|segs|, written),
                                       cfg.preBuffer, cfg.postBuffer, r.value.duration)
  {
    if !v.isOpen then Failure(CannotOpenVideo)
    else if v.fps == 0.0 then Failure(ZeroFrameRate)
    else
      var duration := VideoDuration(v);
      var ids :- ResolveClassIds(classNames, cfg.targets);
      var segs := DetectedSegments(v, ids, cfg.minSegmentDuration);
      DetectedSegmentsFit(v, ids, cfg.minSegmentDuration);
      if |segs| == 0 then
        Success(Report(0.0, [], duration))
      else
        var w := Outcomes(|segs|, written);
        ExportIsSuccessfulAttempts(segs, w, cfg.preBuffer, cfg.postBuffer, duration);
        var saved := ExportClips(segs, w, cfg.preBuffer, cfg.postBuffer, duration);
        Success(Report(TotalDuration(segs), saved, duration))
  }

  /**
    Writer failures change which clips are saved but never the reported
    total duration, which always sums every raw segment.
   */
  lemma TotalIgnoresWriteFailures(v: Video, classNames: seq<(int, string)>, cfg: Config,
                                  w1: nat -> bool, w2: nat -> bool)
    requires v.fps >= 0.0
    requires |v.frames| <= FrameBudget(v)
    ensures DetectAndSave(v, classNames, cfg, w1).Success? <==> DetectAndSave(v, classNames, cfg, w2).Success?
    ensures DetectAndSave(v, classNames, cfg, w1).Success? ==>
              DetectAndSave(v, classNames, cfg, w1).value.targetDuration
              == DetectAndSave(v, classNames, cfg, w2).value.targetDuration
  {
  }

  /** The figures `generate_summary_report` writes, before formatting. */
  datatype Summary = Summary(totalDuration: real, clipCount: nat, clips: seq<SavedClip>, ratio: real)

  /**
    The summary of a report. The count it prints is the number of SAVED
    clips, and the ratio is of the raw total to the video duration.
   */
  function Summarize(rep: Report): (s: Summary)
    ensures s.clipCount == |rep.saved| && s.clips == rep.saved
    ensures s.totalDuration == rep.targetDuration
    ensures s.ratio == Ratio(rep.targetDuration, rep.duration)
    ensures 0.0 <= rep.targetDuration <= rep.duration ==> 0.0 <= s.ratio <= 100.0
  {
    RatioBounds(rep.targetDuration, rep.duration);
    Summary(rep.targetDuration, |rep.saved|, rep.saved, Ratio(rep.targetDuration, rep.duration))
  }

  /** The ratio written for a successful run is a percentage in `[0, 100]`. */
  lemma SummaryRatioIsPercentage(v: Video, classNames: seq<(int, string)>, cfg: Config, written: nat -> bool)
    requires v.fps >= 0.0
    requires |v.frames| <= FrameBudget(v)
    requires DetectAndSave(v, classNames, cfg, written).Success?
    ensures 0.0 <= Summarize(DetectAndSave(v, classNames, cfg, written).value).ratio <= 100.0
  {
    var rep := DetectAndSave(v, classNames, cfg, written).value;
    if rep.duration > 0.0 {
      RatioBounds(rep.targetDuration, rep.duration);
    }
  }

  /** The running statistics drawn on a frame: segment count, total and ratio. */
  datatype Overlay = Overlay(count: nat, total: real, ratio: real)

  /**
    With increasing times, the total of the segments closed after `k`
    samples is never negative and never more than the final total.
   */
  lemma ClosedTotalBounded(s: seq<Sample>, k: nat, minDur: real)
    requires k <= |s|
    ensures IncreasingTimes(s) ==>
              0.0 <= TotalDuration(Accumulate(s[..k], minDur).segments) <= TotalDuration(Segments(s, minDur))
  {
    var segs := Accumulate(s[..k], minDur).segments;
    if IncreasingTimes(s) && k == 0 && |s| > 0 {
      SegmentsOrdered(s, minDur);
      TotalWithinSpan(Segments(s, minDur));
    }
    if IncreasingTimes(s) && k > 0 {
      ClosedSegmentsStable(s, k, minDur);
      SegmentsOrdered(s, minDur);
      TotalMonotone(segs, Segments(s, minDur));
      assert IncreasingTimes(s[..k]);
      AccumulateConsistent(s[..k], minDur);
      TotalWithinSpan(segs);
    }
  }

  /**
    Statistics after the accumulator has processed the first `k` samples:
    those of the segments closed so far, which the final list starts with.
    With increasing times the drawn total is never negative and never more
    than the final total, and a total within the video gives a percentage.
   */
  function RunningStats(s: seq<Sample>, k: nat, minDur: real, duration: real): (o: Overlay)
    requires k <= |s|
    ensures o.count == |Accumulate(s[..k], minDur).segments|
    ensures o.total == TotalDuration(Accumulate(s[..k], minDur).segments)
    ensures Accumulate(s[..k], minDur).segments <= Segments(s, minDur)
    ensures o.count <= |Segments(s, minDur)|
    ensures IncreasingTimes(s) ==> 0.0 <= o.total <= TotalDuration(Segments(s, minDur))
    ensures o.ratio == Ratio(o.total, duration)
    ensures 0.0 <= o.total <= duration ==> 0.0 <= o.ratio <= 100.0
  {
    var segs := Accumulate(s[..k], minDur).segments;
    var total := TotalDuration(segs);
    ClosedSegmentsStable(s, k, minDur);
    ClosedTotalBounded(s, k, minDur);
    assert |segs| <= |Segments(s, minDur)|;
    RatioBounds(total, duration);
    Overlay(|segs|, total, Ratio(total, duration))
  }

  /**
    The drawn segment count and duration never go down from one frame to a
    later one, and never exceed what the final list reports.
   */
  lemma RunningStatsMonotone(s: seq<Sample>, k: nat, k': nat, minDur: real, duration: real)
    requires k <= k' <= |s|
    requires IncreasingTimes(s)
    ensures RunningStats(s, k, minDur, duration).count <= RunningStats(s, k', minDur, duration).count
    ensures RunningStats(s, k, minDur, duration).total <= RunningStats(s, k', minDur, duration).total
    ensures RunningStats(s, k', minDur, duration).total <= TotalDuration(Segments(s, minDur))
  {
    var p := s[..k'];
    assert p[..k] == s[..k];
    ClosedSegmentsStable(p, k, minDur);
    ClosedSegmentsStable(s, k', minDur);
    if |s| > 0 {
      SegmentsOrdered(s, minDur);
      TotalMonotone(Accumulate(p, minDur).segments, Segments(s, minDur));
    }
    if k' > 0 {
      assert IncreasingTimes(p);
      AccumulateConsistent(p, minDur);
      TotalMonotone(Accumulate(s[..k], minDur).segments, Accumulate(p, minDur).segments);
    }
  }
}
