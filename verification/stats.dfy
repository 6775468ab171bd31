/**
  The statistics the pipeline reports: the total target duration (summed
  over raw, unexpanded segments) and the duration ratio, guarded against a
  zero-length video.
 */
module Stats {
  import opened Types

  /** `sum(end - start for start, end in segments)`. */
  function TotalDuration(segs: seq<Segment>): (r: real)
    ensures AllAtLeast(segs, 0.0) ==> r >= 0.0
    ensures |segs| == 1 ==> r == segs[0].Length()
    decreases |segs|
  {
    if |segs| == 0 then 0.0 else segs[0].Length() + TotalDuration(segs[1..])
  }

  /** The total of a concatenation is the sum of the totals. */
  lemma {:induction false} TotalDurationAppend(a: seq<Segment>, b: seq<Segment>)
    ensures TotalDuration(a + b) == TotalDuration(a) + TotalDuration(b)
    decreases |a|
  {
    if |a| == 0 {
      assert a + b == b;
    } else {
      TotalDurationAppend(a[1..], b);
      assert (a + b)[1..] == a[1..] + b;
    }
  }

  /**
    Python's `sum` over the generator: a running total that adds each
    segment's length from the left. It equals `TotalDuration`.
   */
  method SumDurations(segs: seq<Segment>) returns (total: real)
    ensures total == TotalDuration(segs)
  {
    total := 0.0;
    var i := 0;
    while i < |segs|
      invariant 0 <= i <= |segs|
      invariant total == TotalDuration(segs[..i])
    {
      TotalDurationAppend(segs[..i], [segs[i]]);
      assert segs[..i + 1] == segs[..i] + [segs[i]];
      total := total + segs[i].Length();
      i := i + 1;
    }
    assert segs[..i] == segs;
  }

  /** With every segment at least `minDur` long, the total is at least `count * minDur`. */
  lemma {:induction false} TotalAtLeast(segs: seq<Segment>, minDur: real)
    requires AllAtLeast(segs, minDur)
    ensures TotalDuration(segs) >= |segs| as real * minDur
    decreases |segs|
  {
    if |segs| > 0 {
      var rest := segs[1..];
      assert AllAtLeast(rest, minDur);
      TotalAtLeast(rest, minDur);
      assert |segs| as real * minDur == |rest| as real * minDur + minDur;
    }
  }

  /**
    Ordered, disjoint segments cover no more time than the span from the
    first start to the last end, and never a negative amount.
   */
  lemma {:induction false} TotalWithinSpan(segs: seq<Segment>)
    requires Ordered(segs)
    ensures TotalDuration(segs) >= 0.0
    ensures |segs| > 0 ==> TotalDuration(segs) <= segs[|segs| - 1].end - segs[0].start
    decreases |segs|
  {
    if |segs| > 0 {
      var rest := segs[1..];
      assert Ordered(rest);
      TotalWithinSpan(rest);
      if |rest| > 0 {
        assert segs[0].end < rest[0].start;
        assert rest[|rest| - 1] == segs[|segs| - 1];
      }
    }
  }

  /** Extending a list of ordered segments never lowers the total. */
  lemma TotalMonotone(a: seq<Segment>, b: seq<Segment>)
    requires a <= b
    requires Ordered(b)
    ensures TotalDuration(a) <= TotalDuration(b)
  {
    var rest := b[|a|..];
    assert b == a + rest;
    TotalDurationAppend(a, rest);
    assert Ordered(rest);
    TotalWithinSpan(rest);
  }

  /**
    `(total / duration) * 100 if duration > 0 else 0`: the percentage of the
    video covered, and 0 rather than a division error for an empty video.
   */
  function Ratio(total: real, duration: real): (r: real)
    ensures duration > 0.0 ==> r * duration == total * 100.0
    ensures duration <= 0.0 ==> r == 0.0
  {
    if duration > 0.0 then total / duration * 100.0 else 0.0
  }

  /** A total that fits in the video gives a percentage in `[0, 100]`. */
  lemma RatioBounds(total: real, duration: real)
    ensures 0.0 <= total <= duration ==> 0.0 <= Ratio(total, duration) <= 100.0
  {
    if 0.0 <= total <= duration && duration > 0.0 {
      var r := Ratio(total, duration);
      assert r * duration == total * 100.0;
      assert total * 100.0 <= duration * 100.0;
    }
  }
}
