/**
  The detector adapter: resolving the configured class names to the model's
  class ids, and reducing one frame's detection rows to the `has_target`
  flag and the summed box area.
 */
module Detect {
  import opened Types

  /** ASCII lower-casing of one character. */
  function Lower(c: char): char {
    if 'A' <= c <= 'Z' then (c as int + 32) as char else c
  }

  /** `s.lower()`, character by character. */
  function LowerString(s: string): (r: string)
    ensures |r| == |s|
    ensures forall i :: 0 <= i < |s| ==> r[i] == Lower(s[i])
  {
    seq(|s|, i requires 0 <= i < |s| => Lower(s[i]))
  }

  /** Two names that differ only in letter case. */
  ghost predicate SameIgnoringCase(a: string, b: string) {
    |a| == |b| && forall i :: 0 <= i < |a| ==> Lower(a[i]) == Lower(b[i])
  }

  /**
    `name.lower() in [cls.lower() for cls in target_classes]`: the class name
    equals one of the targets up to letter case.
   */
  function MatchesTarget(name: string, targets: seq<string>): (r: bool)
    ensures r <==> exists t :: t in targets && SameIgnoringCase(name, t)
    decreases |targets|
  {
    if |targets| == 0 then false
    else
      assert LowerString(name) == LowerString(targets[0]) <==> SameIgnoringCase(name, targets[0]);
      LowerString(name) == LowerString(targets[0]) || MatchesTarget(name, targets[1..])
  }

  /**
    The ids, in the model's class order, whose name matches a target:
    the list comprehension over `class_names.items()`.
   */
  function MatchingIds(names: seq<(int, string)>, targets: seq<string>): (ids: seq<int>)
    ensures |ids| <= |names|
    ensures forall id :: id in ids <==>
              exists k :: 0 <= k < |names| && names[k].0 == id && MatchesTarget(names[k].1, targets)
    decreases |names|
  {
    if |names| == 0 then []
    else
      var rest := MatchingIds(names[1..], targets);
      assert forall k :: 1 <= k < |names| ==> names[k] == names[1..][k - 1];
      if MatchesTarget(names[0].1, targets) then [names[0].0] + rest else rest
  }

  /**
    Class-id resolution: the matching ids, or a fatal configuration error
    when no configured class name is known to the model.
   */
  function ResolveClassIds(names: seq<(int, string)>, targets: seq<string>): (r: Result<seq<int>>)
    ensures r.Failure? <==> forall k :: 0 <= k < |names| ==> !MatchesTarget(names[k].1, targets)
    ensures r.Failure? ==> r.error == NoTargetClass(targets)
    ensures r.Success? ==> |r.value| > 0 && forall id :: id in r.value <==>
              exists k :: 0 <= k < |names| && names[k].0 == id && MatchesTarget(names[k].1, targets)
  {
    var ids := MatchingIds(names, targets);
    if |ids| == 0 then
      assert forall k :: 0 <= k < |names| ==> names[k].0 !in ids;
      Failure(NoTargetClass(targets))
    else
      assert ids[0] in ids;
      Success(ids)
  }

  /** Resolution ignores letter case: targets equal up to case resolve alike. */
  lemma ResolveIgnoresCase(names: seq<(int, string)>, targets: seq<string>, targets': seq<string>)
    requires |targets| == |targets'|
    requires forall i :: 0 <= i < |targets| ==> SameIgnoringCase(targets[i], targets'[i])
    ensures ResolveClassIds(names, targets).Success? <==> ResolveClassIds(names, targets').Success?
    ensures MatchingIds(names, targets) == MatchingIds(names, targets')
  {
    forall name: string
      ensures MatchesTarget(name, targets) <==> MatchesTarget(name, targets')
    {
      if MatchesTarget(name, targets) {
        var t :| t in targets && SameIgnoringCase(name, t);
        var i :| 0 <= i < |targets| && targets[i] == t;
        assert SameIgnoringCase(name, targets'[i]);
      }
      if MatchesTarget(name, targets') {
        var t :| t in targets' && SameIgnoringCase(name, t);
        var i :| 0 <= i < |targets'| && targets'[i] == t;
        assert SameIgnoringCase(name, targets[i]);
      }
    }
    MatchingIdsCongruent(names, targets, targets');
  }

  lemma {:induction false} MatchingIdsCongruent(names: seq<(int, string)>, targets: seq<string>,
                                                targets': seq<string>)
    requires forall name: string :: MatchesTarget(name, targets) <==> MatchesTarget(name, targets')
    ensures MatchingIds(names, targets) == MatchingIds(names, targets')
    decreases |names|
  {
    if |names| > 0 {
      MatchingIdsCongruent(names[1..], targets, targets');
    }
  }

  /** Python's `int(x)` on a float: truncation toward zero. */
  function Trunc(x: real): (r: int)
    ensures x >= 0.0 ==> r as real <= x < r as real + 1.0
    ensures x < 0.0 ==> r as real - 1.0 < x <= r as real
  {
    if x >= 0.0 then x.Floor else -((-x).Floor)
  }

  /**
    One detection row (`x1, y1, x2, y2, confidence, class`) counts as a
    target when it has at least six fields and its truncated class id is a
    target id.
   */
  predicate IsTargetRow(det: seq<real>, ids: seq<int>) {
    |det| >= 6 && Trunc(det[5]) in ids
  }

  /** `(x2 - x1) * (y2 - y1)` on the truncated corners of a target row. */
  function RowArea(det: seq<real>): int
    requires |det| >= 6
  {
    (Trunc(det[2]) - Trunc(det[0])) * (Trunc(det[3]) - Trunc(det[1]))
  }

  /** `has_target` for one frame: some detection row is a target row. */
  function HasTarget(dets: seq<seq<real>>, ids: seq<int>): (r: bool)
    ensures r <==> exists i :: 0 <= i < |dets| && IsTargetRow(dets[i], ids)
    decreases |dets|
  {
    if |dets| == 0 then false
    else
      assert forall i :: 1 <= i < |dets| ==> dets[i] == dets[1..][i - 1];
      IsTargetRow(dets[0], ids) || HasTarget(dets[1..], ids)
  }

  /** `area` for one frame: the summed box area of the target rows. */
  function TargetArea(dets: seq<seq<real>>, ids: seq<int>): (r: int)
    ensures r != 0 ==> HasTarget(dets, ids)
    decreases |dets|
  {
    if |dets| == 0 then 0
    else
      assert forall i :: 1 <= i < |dets| ==> dets[i] == dets[1..][i - 1];
      (if IsTargetRow(dets[0], ids) then RowArea(dets[0]) else 0) + TargetArea(dets[1..], ids)
  }

  /** The area of a concatenation of rows is the sum of the areas. */
  lemma {:induction false} TargetAreaAppend(a: seq<seq<real>>, b: seq<seq<real>>, ids: seq<int>)
    ensures TargetArea(a + b, ids) == TargetArea(a, ids) + TargetArea(b, ids)
    decreases |a|
  {
    if |a| == 0 {
      assert a + b == b;
    } else {
      TargetAreaAppend(a[1..], b, ids);
      assert (a + b)[1..] == a[1..] + b;
    }
  }

  /**
    The per-frame `for det in detections` loop: `has_target` is set by the
    first target row and `area` accumulates each target row's box area, in
    row order. The result is the frame's `HasTarget` and `TargetArea`.
   */
  method ScanDetections(dets: seq<seq<real>>, ids: seq<int>) returns (hasTarget: bool, area: int)
    ensures hasTarget == HasTarget(dets, ids)
    ensures area == TargetArea(dets, ids)
  {
    hasTarget := false;
    area := 0;
    var i := 0;
    while i < |dets|
      invariant 0 <= i <= |dets|
      invariant hasTarget == HasTarget(dets[..i], ids)
      invariant area == TargetArea(dets[..i], ids)
    {
      var det := dets[i];
      assert dets[..i + 1] == dets[..i] + [det];
      TargetAreaAppend(dets[..i], [det], ids);
      assert HasTarget(dets[..i + 1], ids) == (hasTarget || IsTargetRow(det, ids)) by {
        assert forall k :: 0 <= k < i ==> dets[..i + 1][k] == dets[..i][k];
        assert dets[..i + 1][i] == det;
      }
      if |det| >= 6 && Trunc(det[5]) in ids {
        hasTarget := true;
        area := area + (Trunc(det[2]) - Trunc(det[0])) * (Trunc(det[3]) - Trunc(det[1]));
      }
      i := i + 1;
    }
    assert dets[..i] == dets;
  }

  /** Corners in order: `x1 <= x2` and `y1 <= y2`. */
  predicate WellFormedBox(det: seq<real>) {
    |det| >= 4 && det[0] <= det[2] && det[1] <= det[3]
  }

  /** Truncation keeps order. */
  lemma TruncMonotone(x: real, y: real)
    requires x <= y
    ensures Trunc(x) <= Trunc(y)
  {
  }

  lemma RowAreaNonNegative(det: seq<real>)
    requires |det| >= 6 && WellFormedBox(det)
    ensures RowArea(det) >= 0
  {
    TruncMonotone(det[0], det[2]);
    TruncMonotone(det[1], det[3]);
    var w, h := Trunc(det[2]) - Trunc(det[0]), Trunc(det[3]) - Trunc(det[1]);
    assert w >= 0 && h >= 0;
    assert RowArea(det) == w * h;
  }

  /** With boxes whose corners are in order the summed area is never negative. */
  lemma {:induction false} TargetAreaNonNegative(dets: seq<seq<real>>, ids: seq<int>)
    requires forall i :: 0 <= i < |dets| ==> WellFormedBox(dets[i])
    ensures TargetArea(dets, ids) >= 0
    decreases |dets|
  {
    if |dets| > 0 {
      assert forall i :: 1 <= i < |dets| ==> dets[i] == dets[1..][i - 1];
      TargetAreaNonNegative(dets[1..], ids);
      if IsTargetRow(dets[0], ids) {
        RowAreaNonNegative(dets[0]);
      }
    }
  }
}
