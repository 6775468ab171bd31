# Detection-to-segment pipeline of `cut.py`, in Dafny

This project models the core of `detect_and_save_segments` in `cut.py`. The video
is checked frame by frame for a set of target object classes, and the frames are
turned into time segments. The segments are padded, clamped and exported as clips,
and the run reports its statistics. The model also covers the two small pure
helpers beside it: resolving class names to class ids, and numbering output folders.

Video decoding, the YOLO detector and the moviepy clip writer are reduced to what
the logic observes:

- each processed frame is its list of detection rows;
- a frame's time is `frame_idx / fps`, as an exact `real`;
- each clip write is a success/failure verdict, supplied as a parameter.

Modules, one per component:

- `Types` (`types.dfy`): samples, segments, errors, `Result`, and the ordering predicates.
- `Accumulator` (`accumulator.dfy`): the two-state `Step` folded over the samples
  (`Accumulate`), the end-of-stream `Finalize`, and `FrameLoop`. `FrameLoop` is an
  imperative mirror of the source's `for` loop, proved equal to the fold.
- `Runs` (`runs.dfy`): an independent description of the output in terms of
  maximal runs of target frames. It proves that the fold produces exactly the
  ordered list of the runs that last long enough.
- `Export` (`export.dfy`): buffer expansion and clamping, and the export loop that
  skips a clip when its write fails.
- `Stats` (`stats.dfy`): the total over the raw segments and the guarded ratio.
- `Detect` (`detect.dfy`): case-insensitive class-id resolution, per-frame
  `has_target`, and the summed box area.
- `Folders` (`folders.dfy`): `get_next_output_folder`'s numbering.
- `Pipeline` (`pipeline.dfy`): the whole run, with its fatal errors, the summary
  figures and the running on-frame statistics.
- `Scenarios` (`scenarios.dfy`): concrete signals at 10 fps and their segment lists.

Two behaviours of the code are easy to miss, and the model follows the code in both:

- The summary's "detected segment count" (`cut.py:214`) is the number of SAVED
  clips. It is not the number of raw segments (`Pipeline.Summarize`).
- Segments are not always strictly positive in length. A run still open at the end
  of the stream closes at the last processed frame's own time. With a minimum
  duration of 0, a target seen only on the last frame therefore gives a
  zero-length segment (`Scenarios.LastFrameOnlyGivesZeroLength`). More generally,
  a run of k frames that reaches the end of the stream measures (k-1)/fps. The same
  run closed mid-stream measures k/fps.
- A run stopped early (a failed read or the quit key) also finalises the segment it
  has open at that frame. Its list is therefore not always a prefix of what the full
  run would report (`Runs.EarlyStopReport`, `Scenarios.EarlyStopClosesOpenRun`).

## Model

| member | source | states |
|---|---|---|
| Accumulator.Step | cut.py:119-126 | After each frame the phase is "in segment" exactly when the frame has a target. A segment is appended only on a true-to-false edge, at most one per frame, starting at the open segment's start and ending at this frame's time, and only if it lasted at least the minimum. Earlier segments are kept as they are. |
| Accumulator.Accumulate | cut.py:85-126 | After any prefix of frames, a segment is open exactly when the last frame has a target. No more segments than frames are ever closed. |
| Accumulator.Finalize | cut.py:143-145 | At end of stream, a still-open segment is appended, closed at the last frame's time, exactly when it passes the same inclusive minimum test. Otherwise the list is unchanged, so no segment is left open. |
| Accumulator.FrameTimeMonotone | cut.py:101 | Frame times `idx / fps` are non-negative and strictly increase with the index. |
| Accumulator.SegmentsOrdered | cut.py:119-145 | The final segments are time-ordered and do not overlap: each one ends strictly before the next starts. Each has start <= end and lasts at least the minimum duration, and all lie within the span of the processed frames. |
| Accumulator.Segments | cut.py:85-145 | The final list holds the segments closed in the loop, followed by at most the one still open at the end, closed at the last frame's time. It never has more segments than frames. |
| Accumulator.SegmentsAtLeast | cut.py:122-145 | Every reported segment lasts at least the minimum, for any frame times, because both closes use the same inclusive test. |
| Accumulator.ClosedSegmentsStable | cut.py:91-140 | A closed segment is never revised. The segments already closed after any prefix of the frames are a prefix of the final list. |
| Accumulator.FrameLoop | cut.py:85-145 | The imperative frame loop with `in_segment`, `segment_start_time` and `all_segments`, followed by finalisation, returns exactly the segments of the fold. |
| Runs.OpenRunStart | cut.py:119-121 | An open segment's start frame begins the current run of target frames: every frame from it to the end has a target, and the frame before it has none. |
| Runs.SegmentsAreKeptRuns | cut.py:119-145 | Every reported segment is a maximal run of target frames that opens on a false-to-true edge and lasts at least the minimum. It runs from the run's first frame's time to the first following idle frame's time, or to the last frame's time at end of stream. |
| Runs.KeptRunsAreSegments | cut.py:119-145 | Every maximal run of target frames that lasts at least the minimum is reported. Shorter runs are the only ones missing. |
| Runs.EarlyStopReport | cut.py:91-145 | A run stopped after k frames reports the segments closed so far, which the full run also reports in the same positions. After them comes at most the run open at the stop, from its first frame's time to the stop frame's time. |
| Runs.RunsDistinct | cut.py:119-125 | Two kept runs with the same interval are the same run, so each run is reported once. |
| Runs.SegmentsUnique | cut.py:85-145 | The segment list equals every time-ordered list that holds exactly the intervals of the kept runs. The output is fully determined by the signal. |
| Export.Expand | cut.py:163-164 | The expanded start is `max(0, start - pre)` and is never negative. The expanded end is `min(duration, end + post)` and never exceeds the duration. |
| Export.ExpandContains | cut.py:163-164 | With non-negative buffers and a raw segment inside the video, the expanded interval contains the raw one and stays inside `[0, duration]`. |
| Export.ExportClips | cut.py:162-196 | There is one attempt per raw segment, so no more clips are saved than there are raw segments. |
| Export.ExportIsSuccessfulAttempts | cut.py:162-196 | The saved list is an order-preserving subsequence of the attempts. Each entry is the expanded clip of a raw segment whose write succeeded, and every successful write appears. No merging happens. |
| Export.AllWrittenExportsAll | cut.py:162-196 | When every write succeeds, one clip is saved per raw segment. This holds even when the expanded ranges overlap. |
| Export.FailureSkipsOnlyThatClip | cut.py:166-196 | Making one write fail removes exactly that clip from the saved list and leaves every other entry in place. |
| Export.ExportLoop | cut.py:157-196 | The imperative `enumerate` loop with its try/except returns exactly the saved list of the functional definition. |
| Stats.TotalDuration | cut.py:201 | The total of segments whose lengths are all non-negative is non-negative. For a single segment it is that segment's length. |
| Stats.SumDurations | cut.py:201 | Python's left-to-right running `sum` of the segment lengths equals `TotalDuration`. |
| Stats.TotalAtLeast | cut.py:201 | When every segment lasts at least the minimum, the total duration is at least the count times the minimum. |
| Stats.TotalWithinSpan | cut.py:201 | For ordered, disjoint segments the total is non-negative and at most the span from the first start to the last end. |
| Stats.TotalMonotone | cut.py:129 | Adding segments to an ordered list never lowers the total. |
| Stats.Ratio | cut.py:226 | For a positive duration, ratio times duration equals total times 100. For a zero duration the ratio is 0, with no division. |
| Stats.RatioBounds | cut.py:226 | A total within `[0, duration]` gives a ratio within `[0, 100]`. |
| Detect.MatchesTarget | cut.py:80 | A class name matches exactly when it equals some target name up to letter case. |
| Detect.MatchingIds | cut.py:80 | An id is selected exactly when the model lists it with a name that matches a target. |
| Detect.ResolveClassIds | cut.py:80-82 | Resolution fails with a "target class not found" error exactly when no class name matches. Otherwise it returns a non-empty list holding exactly the matching ids, as a set; the order of the ids is not stated. |
| Detect.ResolveIgnoresCase | cut.py:80 | Targets that differ only in letter case resolve to the same ids. |
| Detect.Trunc | cut.py:108-110 | `int()` on a float truncates toward zero. |
| Detect.HasTarget | cut.py:105-109 | A frame has a target exactly when some detection row has at least six fields and a truncated class id among the target ids. |
| Detect.TargetArea | cut.py:106-112 | The summed area is 0 for a frame without a target row: a non-zero area implies `has_target`. |
| Detect.ScanDetections | cut.py:105-112 | The per-frame loop over detection rows returns exactly `HasTarget` and `TargetArea` of the frame, accumulating the area in row order. |
| Detect.TargetAreaNonNegative | cut.py:110-112 | With box corners in order, the summed box area of a frame is never negative. |
| Folders.LeadingDigits | cut.py:38 | The captured digits are the longest all-digit prefix: the greedy `\d+`. |
| Folders.MaxSuffix | cut.py:35-42 | `max_num` is at least every counted folder's number. It is either 0 or the number of some counted folder. |
| Folders.DecimalRoundTrip | cut.py:38-46 | Writing a number in decimal and reading the digits back gives the number. |
| Folders.NextOutputFolder | cut.py:30-46 | The new number is at least 1 and strictly greater than every existing `output<digits>` directory's number. It is one more than the largest, or 1 if there is none. The new name is itself an output name whose number reads back as the new number. |
| Folders.NextAfterCreate | cut.py:30-47 | After the returned folder is created, the next call returns the following number. |
| Pipeline.VideoDuration | cut.py:66-68 | The duration times the frame rate is the frame count. It is the time frame `total_frames` would have, and it is negative exactly when the reported frame count is. |
| Pipeline.DetectedSegmentsFit | cut.py:66-145 | The raw segments of a run are ordered and each lasts at least the minimum. They lie within `[0, total_frames / fps]`. Their total is non-negative, and at most the duration when the frame count is non-negative. A frame count of 0 or less gives no segments, since `range` then visits no frame. |
| Pipeline.DetectAndSave | cut.py:51-205 | These are fatal errors, checked in this order: a video that cannot be opened, a zero frame rate, and unresolved target classes. A run that passes all three yields a report; the failures the model does not represent are listed under Left out. On success the report has the video duration and the total of the RAW segments. That total is non-negative, and at most the duration unless the frame count is negative. It has at most one saved clip per raw segment, and the saved list is exactly the successful attempts in order. |
| Pipeline.TotalIgnoresWriteFailures | cut.py:162-201 | Clip-writer failures never change whether a run succeeds or its reported total duration. |
| Pipeline.Summarize | cut.py:207-228 | The summary's count is the number of SAVED clips, not raw segments. Its total is the raw total, and its ratio is the guarded percentage of that total. A total within `[0, duration]` gives a ratio in `[0, 100]`. |
| Pipeline.SummaryRatioIsPercentage | cut.py:226 | The ratio written for any successful run lies in `[0, 100]`. |
| Pipeline.RunningStats | cut.py:129-134 | The on-frame figures are those of the segments closed so far, which the final list starts with. So the drawn count never exceeds the final count. With increasing times the drawn total lies between 0 and the final total. The ratio is taken against the whole video's duration, and lies in `[0, 100]` when the drawn total fits in the video. |
| Pipeline.RunningStatsMonotone | cut.py:129-134 | The drawn count and duration never decrease from frame to frame, and never exceed the final total. |
| Scenarios.TwentyFrameRun | cut.py:119-145 | Ten idle frames, then twenty with a target, then ten idle, at 10 fps with a 0.5 s minimum, give the single segment (1.0 s, 3.0 s). |
| Scenarios.BlipDropped | cut.py:122-126 | A one-frame blip of 0.1 s under a 0.5 s minimum gives no segment. |
| Scenarios.ExactMinimumKept | cut.py:124 | A run lasting exactly the minimum is kept, because the test is inclusive. |
| Scenarios.BelowMinimumDropped | cut.py:124 | A run one frame shorter than the minimum is dropped. |
| Scenarios.OpenAtEndClosesAtLastFrame | cut.py:143-145 | A run open at end of stream closes at the last frame's time (0.9 s), not one frame later. |
| Scenarios.LastFrameOnlyGivesZeroLength | cut.py:143-145 | With a zero minimum, a target only on the last frame gives a zero-length segment. |
| Scenarios.EarlyStopClosesOpenRun | cut.py:139-145 | Three target frames then an idle one, with no minimum: stopping after two frames reports (0.0 s, 0.1 s), while the full run reports (0.0 s, 0.3 s). |
| Scenarios.OneFrameGapKeepsTwoSegments | cut.py:119-164 | Two runs separated by one idle frame give two segments. Both are exported as separate clips even though their expanded ranges overlap. |

## Left out

- YOLO inference (`model.predict`) and the confidence threshold: each frame is
  given as its detection rows after the model's own filtering.
- OpenCV capture and writer, `cv2.waitKey`, window handling: the processed frames
  are an arbitrary prefix of the video's frames. An early `break` is a shorter prefix.
- moviepy `subclipped` / `write_videofile`: each clip write is a success/failure
  verdict supplied by the caller. Nothing is retried.
- Drawing: boxes, labels and the PIL text lines are pixel output. The per-frame
  area percentage (`cut.py:136`) is left out, including its division by
  `width * height`. Only the summed area is modelled.
- Wall-clock timestamps, progress logging, clip file names and paths, the summary
  file's text and its `:.1f` / `:.2f` formatting. Directory creation and
  `os.path.join` with the base path are left out too; the directory listing is an input.
- `pdf_generate.py` (report layout) and `train.py` (a training call) are not part
  of this model.
- Python floats are exact reals, so rounding in `frame_idx / fps` and in the sums is not modelled.
- Pipeline.DetectAndSave: requires a non-negative frame rate. OpenCV never reports
  a negative one, and the zero case is modelled as the ZeroDivisionError it raises.
- Pipeline.DetectAndSave: the frame count reported by the container is trusted as the duration's numerator.
  A negative count is modelled: no frame is visited and the duration is negative.
- Pipeline.DetectAndSave: exceptions the source does not catch, after or outside the three
  modelled checks, are not represented. These are: the `YOLO(...)` load at `cut.py:61`,
  which fails before the video is even opened; a missing font in `cv2AddChineseText`
  (`cut.py:17`); the ZeroDivisionError of the area percentage when `width * height == 0`
  and a frame is processed (`cut.py:136`); and a failing `VideoFileClip(...)` at `cut.py:156`,
  outside the `try`. With any of these the run raises instead of returning a report.
- Detect.MatchesTarget: lower-casing is ASCII only, while Python's `str.lower` also
  folds non-ASCII letters.
- Folders.LeadingDigits: `\d` and `int()` are ASCII digits only, while Python also
  accepts other Unicode decimal digits.
- Runs.SegmentsUnique: the claim "the number of segments equals the number of
  kept runs" is not stated as a count. It follows from this lemma together with
  Runs.RunsDistinct.
- Running the accumulator twice on the same signal gives the same list. This holds
  because every operation is a pure function, so it is not stated as a lemma.
