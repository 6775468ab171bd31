/**
  The clip export stage: each raw segment is padded by the pre/post buffers,
  clamped to the video, and handed to the clip writer on its own. A writer
  failure skips that one clip; the loop goes on with the next.
 */
module Export {
  import opened Types

  /**
    `max(0, start - pre)` and `min(duration, end + post)`. Each segment is
    expanded on its own; overlapping expanded segments are not merged.
   */
  function Expand(seg: Segment, pre: real, post: real, duration: real): (r: Segment)
    ensures 0.0 <= r.start && r.end <= duration
    ensures r.start >= seg.start - pre && r.end <= seg.end + post
    ensures r.start == 0.0 || r.start == seg.start - pre
    ensures r.end == duration || r.end == seg.end + post
  {
    Segment(if seg.start - pre > 0.0 then seg.start - pre else 0.0,
            if duration < seg.end + post then duration else seg.end + post)
  }

  /**
    With non-negative buffers and a raw segment inside `[0, duration]`, the
    expanded interval contains the raw one.
   */
  lemma ExpandContains(seg: Segment, pre: real, post: real, duration: real)
    requires pre >= 0.0 && post >= 0.0
    requires 0.0 <= seg.start && seg.end <= duration
    ensures 0.0 <= Expand(seg, pre, post, duration).start <= seg.start
    ensures seg.end <= Expand(seg, pre, post, duration).end <= duration
  {
  }

  /**
    One entry of `saved_segments`: the position of the segment in the raw
    list, its original and its expanded timing. The file path is left out.
   */
  datatype SavedClip = SavedClip(index: nat, original: Segment, expanded: Segment) {
    /** The `duration` field: the length of the exported clip. */
    function Duration(): real {
      expanded.Length()
    }
  }

  /** The record the loop appends when clip `i` was written. */
  function ClipFor(segs: seq<Segment>, i: nat, pre: real, post: real, duration: real): SavedClip
    requires i < |segs|
  {
    SavedClip(i, segs[i], Expand(segs[i], pre, post, duration))
  }

  /**
    `saved_segments` after one attempt per raw segment, in order;
    `written[i]` says whether writing clip `i` succeeded.
   */
  function ExportClips(segs: seq<Segment>, written: seq<bool>, pre: real, post: real, duration: real)
    : (saved: seq<SavedClip>)
    requires |written| == |segs|
    ensures |saved| <= |segs|
    decreases |segs|
  {
    if |segs| == 0 then []
    else
      var n := |segs| - 1;
      var earlier := ExportClips(segs[..n], written[..n], pre, post, duration);
      if written[n] then earlier + [ClipFor(segs, n, pre, post, duration)] else earlier
  }

  /** Every saved record is the expanded clip of a raw segment whose write succeeded. */
  ghost predicate EntriesWritten(saved: seq<SavedClip>, segs: seq<Segment>, written: seq<bool>,
                                 pre: real, post: real, duration: real)
    requires |written| == |segs|
  {
    forall k :: 0 <= k < |saved| ==>
      saved[k].index < |segs| && written[saved[k].index]
      && saved[k] == ClipFor(segs, saved[k].index, pre, post, duration)
  }

  /** Saved records keep the raw order, without repetition. */
  ghost predicate InRawOrder(saved: seq<SavedClip>) {
    forall k, l :: 0 <= k < l < |saved| ==> saved[k].index < saved[l].index
  }

  /** Every successful write has its record. */
  ghost predicate AllWritesSaved(saved: seq<SavedClip>, written: seq<bool>) {
    forall i :: 0 <= i < |written| && written[i] ==>
      exists k :: 0 <= k < |saved| && saved[k].index == i
  }

  /**
    `saved` lists, in raw order and without repetition, the clips of exactly
    those raw segments whose write succeeded.
   */
  ghost predicate SuccessfulAttempts(saved: seq<SavedClip>, segs: seq<Segment>, written: seq<bool>,
                                     pre: real, post: real, duration: real)
    requires |written| == |segs|
  {
    EntriesWritten(saved, segs, written, pre, post, duration)
    && InRawOrder(saved)
    && AllWritesSaved(saved, written)
  }

  /** The record list after attempt `n`, given the list before it. */
  ghost predicate NextAttempt(earlier: seq<SavedClip>, saved: seq<SavedClip>, segs: seq<Segment>,
                              written: seq<bool>, pre: real, post: real, duration: real)
    requires |written| == |segs| > 0
  {
    var n := |segs| - 1;
    saved == if written[n] then earlier + [ClipFor(segs, n, pre, post, duration)] else earlier
  }

  lemma EntriesWrittenStep(earlier: seq<SavedClip>, saved: seq<SavedClip>, segs: seq<Segment>,
                           written: seq<bool>, pre: real, post: real, duration: real)
    requires |written| == |segs| > 0
    requires NextAttempt(earlier, saved, segs, written, pre, post, duration)
    requires EntriesWritten(earlier, segs[..|segs| - 1], written[..|segs| - 1], pre, post, duration)
    ensures EntriesWritten(saved, segs, written, pre, post, duration)
  {
    var n := |segs| - 1;
    forall k | 0 <= k < |saved|
      ensures saved[k].index < |segs| && written[saved[k].index]
      ensures saved[k] == ClipFor(segs, saved[k].index, pre, post, duration)
    {
      if k < |earlier| {
        var i := earlier[k].index;
        assert saved[k] == earlier[k];
        assert written[..n][i] == written[i];
        assert segs[..n][i] == segs[i];
      }
    }
  }

  lemma InRawOrderStep(earlier: seq<SavedClip>, saved: seq<SavedClip>, segs: seq<Segment>,
                       written: seq<bool>, pre: real, post: real, duration: real)
    requires |written| == |segs| > 0
    requires NextAttempt(earlier, saved, segs, written, pre, post, duration)
    requires EntriesWritten(earlier, segs[..|segs| - 1], written[..|segs| - 1], pre, post, duration)
    requires InRawOrder(earlier)
    ensures InRawOrder(saved)
  {
    forall k, l | 0 <= k < l < |saved|
      ensures saved[k].index < saved[l].index
    {
      assert saved[k] == earlier[k];
      if l < |earlier| {
        assert saved[l] == earlier[l];
      }
    }
  }

  lemma AllWritesSavedStep(earlier: seq<SavedClip>, saved: seq<SavedClip>, segs: seq<Segment>,
                           written: seq<bool>, pre: real, post: real, duration: real)
    requires |written| == |segs| > 0
    requires NextAttempt(earlier, saved, segs, written, pre, post, duration)
    requires AllWritesSaved(earlier, written[..|segs| - 1])
    ensures AllWritesSaved(saved, written)
  {
    var n := |segs| - 1;
    forall i | 0 <= i < |written| && written[i]
      ensures exists k :: 0 <= k < |saved| && saved[k].index == i
    {
      if i < n {
        assert written[..n][i];
        var k :| 0 <= k < |earlier| && earlier[k].index == i;
        assert saved[k] == earlier[k];
      } else {
        assert saved[|earlier|].index == i;
      }
    }
  }

  /**
    `saved_segments` is an order-preserving subsequence of the attempts:
    every saved record is the expanded clip of a raw segment whose write
    succeeded, records keep the raw order, and every successful write is
    recorded. Nothing is merged and nothing is retried.
   */
  lemma {:induction false} ExportIsSuccessfulAttempts(segs: seq<Segment>, written: seq<bool>,
                                                      pre: real, post: real, duration: real)
    requires |written| == |segs|
    ensures SuccessfulAttempts(ExportClips(segs, written, pre, post, duration),
                               segs, written, pre, post, duration)
    decreases |segs|
  {
    if |segs| == 0 {
      return;
    }
    var n := |segs| - 1;
    var earlier := ExportClips(segs[..n], written[..n], pre, post, duration);
    var saved := ExportClips(segs, written, pre, post, duration);
    ExportIsSuccessfulAttempts(segs[..n], written[..n], pre, post, duration);
    assert NextAttempt(earlier, saved, segs, written, pre, post, duration);
    EntriesWrittenStep(earlier, saved, segs, written, pre, post, duration);
    InRawOrderStep(earlier, saved, segs, written, pre, post, duration);
    AllWritesSavedStep(earlier, saved, segs, written, pre, post, duration);
  }

  /** When every write succeeds, every raw segment is exported, in order. */
  lemma {:induction false} AllWrittenExportsAll(segs: seq<Segment>, written: seq<bool>,
                                                pre: real, post: real, duration: real)
    requires |written| == |segs|
    requires forall i :: 0 <= i < |written| ==> written[i]
    ensures |ExportClips(segs, written, pre, post, duration)| == |segs|
    decreases |segs|
  {
    if |segs| > 0 {
      var n := |segs| - 1;
      AllWrittenExportsAll(segs[..n], written[..n], pre, post, duration);
    }
  }

  /** `after` is `before` with the one clip of raw segment `f` taken out. */
  ghost predicate RemovedAt(before: seq<SavedClip>, after: seq<SavedClip>, f: nat) {
    exists k :: 0 <= k < |before| && before[k].index == f && after == before[..k] + before[k + 1..]
  }

  lemma RemovedAtLast(earlier: seq<SavedClip>, c: SavedClip)
    ensures RemovedAt(earlier + [c], earlier, c.index)
  {
    var before := earlier + [c];
    var k := |earlier|;
    assert before[..k] + before[k + 1..] == earlier;
  }

  lemma RemovedAtAppend(before: seq<SavedClip>, after: seq<SavedClip>, f: nat, c: SavedClip)
    requires RemovedAt(before, after, f)
    ensures RemovedAt(before + [c], after + [c], f)
  {
    var k :| 0 <= k < |before| && before[k].index == f && after == before[..k] + before[k + 1..];
    var b := before + [c];
    assert b[k] == before[k];
    assert b[..k] == before[..k];
    assert b[k + 1..] == before[k + 1..] + [c];
    assert after + [c] == b[..k] + b[k + 1..];
  }

  /**
    A failed write only loses its own clip: turning one success into a
    failure removes exactly that clip and leaves all others in place.
   */
  lemma {:induction false} FailureSkipsOnlyThatClip(segs: seq<Segment>, written: seq<bool>, f: nat,
                                                    pre: real, post: real, duration: real)
    requires |written| == |segs|
    requires f < |segs| && written[f]
    ensures RemovedAt(ExportClips(segs, written, pre, post, duration),
                      ExportClips(segs, written[f := false], pre, post, duration), f)
    decreases |segs|
  {
    var n := |segs| - 1;
    var w' := written[f := false];
    var before0 := ExportClips(segs[..n], written[..n], pre, post, duration);
    var after0 := ExportClips(segs[..n], w'[..n], pre, post, duration);
    var c := ClipFor(segs, n, pre, post, duration);
    if f == n {
      assert w'[..n] == written[..n];
      RemovedAtLast(before0, c);
    } else {
      assert w'[..n] == written[..n][f := false];
      FailureSkipsOnlyThatClip(segs[..n], written[..n], f, pre, post, duration);
      if written[n] {
        RemovedAtAppend(before0, after0, f, c);
      }
    }
  }

  /**
    The export loop `for i, (start, end) in enumerate(all_segments)` with its
    try/except: one attempt per raw segment, appending on success and
    skipping on failure.
   */
  method ExportLoop(allSegments: seq<Segment>, written: seq<bool>, pre: real, post: real, duration: real)
    returns (savedSegments: seq<SavedClip>)
    requires |written| == |allSegments|
    ensures savedSegments == ExportClips(allSegments, written, pre, post, duration)
  {
    savedSegments := [];
    var i := 0;
    while i < |allSegments|
      invariant 0 <= i <= |allSegments|
      invariant savedSegments == ExportClips(allSegments[..i], written[..i], pre, post, duration)
    {
      var start, end := allSegments[i].start, allSegments[i].end;
      var expandedStart := if start - pre > 0.0 then start - pre else 0.0;
      var expandedEnd := if duration < end + post then duration else end + post;
      if written[i] {
        savedSegments := savedSegments + [SavedClip(i, Segment(start, end), Segment(expandedStart, expandedEnd))];
      }
      assert allSegments[..i + 1][..i] == allSegments[..i];
      assert written[..i + 1][..i] == written[..i];
      i := i + 1;
    }
    assert allSegments[..i] == allSegments;
    assert written[..i] == written;
  }
}
