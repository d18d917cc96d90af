/** Arc-length resampling of polylines in `topology_hypotheses.cpp`. */
module Resampling {
  import opened Wrappers

  datatype Point = Point(x: real, y: real)

  type Hypot = (real, real) -> real

  /** What the model keeps of std::hypot: even, nonnegative, and zero only at the origin. */
  ghost predicate IsNorm(hypot: Hypot) {
    && (forall x, y :: hypot(x, y) >= 0.0 && hypot(-x, -y) == hypot(x, y))
    && (forall x, y :: hypot(x, y) == 0.0 <==> x == 0.0 && y == 0.0)
  }

  function Distance(hypot: Hypot, p: Point, q: Point): real {
    hypot(q.x - p.x, q.y - p.y)
  }

  lemma DistanceSymmetric(hypot: Hypot, p: Point, q: Point)
    requires IsNorm(hypot)
    ensures Distance(hypot, p, q) == Distance(hypot, q, p) >= 0.0
    ensures Distance(hypot, p, q) == 0.0 <==> p == q
  {
    var x, y := q.x - p.x, q.y - p.y;
    assert hypot(-x, -y) == hypot(x, y);
    assert p.x - q.x == -x && p.y - q.y == -y;
  }

  /** Length of the polyline up to vertex `k`. */
  ghost function ArcLength(hypot: Hypot, points: seq<Point>, k: nat): real
    requires k < |points|
  {
    if k == 0 then 0.0 else ArcLength(hypot, points, k - 1) + Distance(hypot, points[k - 1], points[k])
  }

  lemma {:induction false} ArcLengthMonotone(hypot: Hypot, points: seq<Point>, j: nat, k: nat)
    requires IsNorm(hypot) && j <= k < |points|
    ensures 0.0 <= ArcLength(hypot, points, j) <= ArcLength(hypot, points, k)
    ensures ArcLength(hypot, points, j) == ArcLength(hypot, points, k) ==> points[j] == points[k]
  {
    hide IsNorm, Distance;
    if k > 0 {
      DistanceSymmetric(hypot, points[k - 1], points[k]);
      if j == k {
        ArcLengthMonotone(hypot, points, 0, k - 1);
      } else {
        ArcLengthMonotone(hypot, points, j, k - 1);
      }
    }
  }

  function Interpolate(p: Point, q: Point, fraction: real): Point {
    Point(p.x + fraction * (q.x - p.x), p.y + fraction * (q.y - p.y))
  }

  function Clamp(x: real): real {
    if x < 0.0 then 0.0 else if 1.0 < x then 1.0 else x
  }

  /** Share of the segment ending at vertex `k` that lies before arc length `t`. */
  ghost function Share(hypot: Hypot, points: seq<Point>, k: nat, t: real): real
    requires 0 < k < |points| && ArcLength(hypot, points, k - 1) < ArcLength(hypot, points, k)
  {
    (t - ArcLength(hypot, points, k - 1)) / (ArcLength(hypot, points, k) - ArcLength(hypot, points, k - 1))
  }

  /** `p` lies on the segment ending at vertex `k`, at arc length exactly `t`. */
  ghost predicate OnSegment(hypot: Hypot, points: seq<Point>, k: int, t: real, p: Point) {
    && 0 < k < |points|
    && ArcLength(hypot, points, k - 1) < t <= ArcLength(hypot, points, k)
    && p == Interpolate(points[k - 1], points[k], Share(hypot, points, k, t))
  }

  ghost predicate AtArcLength(hypot: Hypot, points: seq<Point>, t: real, p: Point) {
    exists k :: OnSegment(hypot, points, k, t, p)
  }

  /** One arc length names one point. */
  lemma AtArcLengthUnique(hypot: Hypot, points: seq<Point>, t: real, p: Point, q: Point)
    requires IsNorm(hypot)
    requires AtArcLength(hypot, points, t, p) && AtArcLength(hypot, points, t, q)
    ensures p == q
  {
    hide IsNorm, ArcLength, Interpolate, Share;
    var j :| OnSegment(hypot, points, j, t, p);
    var k :| OnSegment(hypot, points, k, t, q);
    if j < k {
      ArcLengthMonotone(hypot, points, j, k - 1);
    } else if k < j {
      ArcLengthMonotone(hypot, points, k, j - 1);
    }
  }

  /** A point at arc length `t` divides its segment in the proportion of the lengths before and after it. */
  lemma AtArcLengthMeaning(hypot: Hypot, points: seq<Point>, t: real, p: Point) returns (k: nat)
    requires AtArcLength(hypot, points, t, p)
    ensures 0 < k < |points| && ArcLength(hypot, points, k - 1) < t <= ArcLength(hypot, points, k)
    ensures var a, b, before := points[k - 1], points[k], ArcLength(hypot, points, k - 1);
            && ArcLength(hypot, points, k) == before + hypot(b.x - a.x, b.y - a.y)
            && (p.x - a.x) * hypot(b.x - a.x, b.y - a.y) == (b.x - a.x) * (t - before)
            && (p.y - a.y) * hypot(b.x - a.x, b.y - a.y) == (b.y - a.y) * (t - before)
  {
    hide Interpolate;
    var j :| OnSegment(hypot, points, j, t, p);
    k := j;
    var before := ArcLength(hypot, points, k - 1);
    InterpolateMeaning(points[k - 1], points[k], t - before, ArcLength(hypot, points, k) - before);
  }

  lemma InterpolateMeaning(a: Point, b: Point, part: real, whole: real)
    requires whole > 0.0
    ensures var p := Interpolate(a, b, part / whole);
            (p.x - a.x) * whole == (b.x - a.x) * part && (p.y - a.y) * whole == (b.y - a.y) * part
  {
    Proportion(b.x - a.x, part, whole);
    Proportion(b.y - a.y, part, whole);
  }

  lemma Proportion(side: real, part: real, whole: real)
    requires whole > 0.0
    ensures part / whole * side * whole == side * part
  {
    var f := part / whole;
    assert f * whole == part;
    assert f * side * whole == side * (f * whole);
  }

  /** Samples stand at equal steps. */
  lemma TargetMeaning(total: real, i: nat, count: nat)
    requires count >= 2
    ensures Target(total, i, count) * (count - 1) as real == total * i as real
  {
  }

  /** Arc length of sample `i` out of `count`. */
  function Target(total: real, i: nat, count: nat): real
    requires count >= 2
  {
    total * i as real / (count - 1) as real
  }

  lemma TargetGrows(total: real, i: nat, count: nat)
    requires count >= 2 && total > 0.0
    ensures Target(total, i, count) < Target(total, i + 1, count)
    ensures Target(total, 0, count) == 0.0
  {
    var d := (count - 1) as real;
    assert Target(total, i + 1, count) - Target(total, i, count) == total / d;
  }

  lemma {:induction false} TargetBetween(total: real, i: nat, count: nat)
    requires count >= 2 && total > 0.0 && 0 < i < count
    ensures 0.0 < Target(total, i, count) <= total
    ensures Target(total, count - 1, count) == total
  {
    TargetWhole(total, count);
    TargetPositive(total, i, count);
    TargetOrdered(total, i, count - 1, count);
  }

  lemma TargetWhole(total: real, count: nat)
    requires count >= 2
    ensures Target(total, count - 1, count) == total
  {
  }

  lemma {:induction false} TargetPositive(total: real, i: nat, count: nat)
    requires count >= 2 && total > 0.0 && 0 < i
    ensures 0.0 < Target(total, i, count)
  {
    hide Target;
    TargetGrows(total, i - 1, count);
    if i > 1 {
      TargetPositive(total, i - 1, count);
    }
  }

  lemma {:induction false} TargetOrdered(total: real, i: nat, j: nat, count: nat)
    requires count >= 2 && total > 0.0 && i <= j
    ensures Target(total, i, count) <= Target(total, j, count)
    decreases j
  {
    hide Target;
    if i < j {
      TargetGrows(total, j - 1, count);
      TargetOrdered(total, i, j - 1, count);
    }
  }

  /** Running lengths of a polyline. */
  ghost predicate Running(hypot: Hypot, points: seq<Point>, cumulative: seq<real>) {
    |cumulative| <= |points| &&
    forall k :: 0 <= k < |cumulative| ==> cumulative[k] == ArcLength(hypot, points, k)
  }

  method Accumulate(hypot: Hypot, points: seq<Point>) returns (cumulative: seq<real>)
    requires points != []
    ensures |cumulative| == |points| && Running(hypot, points, cumulative)
  {
    hide Distance;
    cumulative := [0.0];
    for k := 1 to |points|
      invariant |cumulative| == k && Running(hypot, points, cumulative)
    {
      var next := cumulative[k - 1] + Distance(hypot, points[k - 1], points[k]);
      assert next == ArcLength(hypot, points, k);
      cumulative := cumulative + [next];
    }
  }

  /** Where the forward sweep stands for arc length `t`. */
  ghost predicate Swept(hypot: Hypot, points: seq<Point>, segment: nat, t: real) {
    1 <= segment < |points| && (segment == 1 || ArcLength(hypot, points, segment - 1) < t)
  }

  /** Advance the sweep to the first vertex at or beyond `t`, never moving back. */
  method Advance(hypot: Hypot, points: seq<Point>, cumulative: seq<real>, from: nat, t: real) returns (segment: nat)
    requires |cumulative| == |points| && Running(hypot, points, cumulative)
    requires Swept(hypot, points, from, t)
    ensures Swept(hypot, points, segment, t) && from <= segment
    ensures segment + 1 == |points| || t <= ArcLength(hypot, points, segment)
  {
    segment := from;
    while segment + 1 < |cumulative| && cumulative[segment] < t
      invariant Swept(hypot, points, segment, t) && from <= segment
    {
      segment := segment + 1;
    }
  }

  /** The sample that the sweep takes on one segment. */
  function Sample(points: seq<Point>, k: nat, before: real, after: real, t: real): Point
    requires 0 < k < |points|
  {
    if !(after - before > 0.0) then points[k]
    else Interpolate(points[k - 1], points[k], Clamp((t - before) / (after - before)))
  }

  lemma ShareWithin(before: real, after: real, t: real)
    requires before < t <= after
    ensures 0.0 < (t - before) / (after - before) <= 1.0
    ensures t == after ==> (t - before) / (after - before) == 1.0
  {
    var a, b := t - before, after - before;
    assert a / b == a * (1.0 / b) && b * (1.0 / b) == 1.0;
    var inverse := 1.0 / b;
    assert inverse > 0.0;
    assert (b - a) * inverse >= 0.0;
  }

  /** Past the first sample neither the zero-length branch nor the clamp is taken. */
  lemma SampleExact(hypot: Hypot, points: seq<Point>, k: nat, t: real)
    requires IsNorm(hypot) && |points| >= 2 && Swept(hypot, points, k, t)
    requires 0.0 < t <= ArcLength(hypot, points, |points| - 1)
    requires k + 1 == |points| || t <= ArcLength(hypot, points, k)
    ensures OnSegment(hypot, points, k, t,
              Sample(points, k, ArcLength(hypot, points, k - 1), ArcLength(hypot, points, k), t))
  {
    hide Interpolate, IsNorm, Distance;
    assert ArcLength(hypot, points, 0) == 0.0;
    ShareWithin(ArcLength(hypot, points, k - 1), ArcLength(hypot, points, k), t);
  }

  ghost predicate Resampled(hypot: Hypot, points: seq<Point>, count: nat, r: seq<Point>)
    requires |points| >= 2 && count >= 2
  {
    && |r| == count && r[0] == points[0]
    && forall i {:trigger r[i]} :: 0 < i < count ==>
      AtArcLength(hypot, points, Target(ArcLength(hypot, points, |points| - 1), i, count), r[i])
  }

  /** The last vertex lies at the full length, after any trailing segments of length zero. */
  lemma {:induction false} LastVertex(hypot: Hypot, points: seq<Point>, k: nat)
    requires IsNorm(hypot) && k < |points| && ArcLength(hypot, points, k) > 0.0
    ensures AtArcLength(hypot, points, ArcLength(hypot, points, k), points[k])
  {
    hide IsNorm, Distance;
    ArcLengthMonotone(hypot, points, k - 1, k);
    if ArcLength(hypot, points, k - 1) == ArcLength(hypot, points, k) {
      LastVertex(hypot, points, k - 1);
    } else {
      ShareWithin(ArcLength(hypot, points, k - 1), ArcLength(hypot, points, k), ArcLength(hypot, points, k));
      assert OnSegment(hypot, points, k, ArcLength(hypot, points, k), points[k]);
    }
  }

  /** Resample at equal arc-length steps; None for a polyline of length zero. */
  method Resample(hypot: Hypot, points: seq<Point>, count: nat) returns (r: Option<seq<Point>>)
    requires IsNorm(hypot) && |points| >= 2 && count >= 2
    ensures r.None? <==> ArcLength(hypot, points, |points| - 1) <= 0.0
    ensures r.Some? ==> Resampled(hypot, points, count, r.value) && r.value[count - 1] == points[|points| - 1]
  {
    hide OnSegment, Target, IsNorm, ArcLength;
    var cumulative := Accumulate(hypot, points);
    var total := cumulative[|points| - 1];
    if !(total > 0.0) {
      return None;
    }
    var result: seq<Point> := [];
    var segment := 1;
    for i := 0 to count
      invariant |result| == i
      invariant Swept(hypot, points, segment, Target(total, i, count))
      invariant forall j {:trigger result[j]} :: 0 < j < i ==>
                AtArcLength(hypot, points, Target(total, j, count), result[j])
    {
      var target := Target(total, i, count);
      segment := Advance(hypot, points, cumulative, segment, target);
      var sample := Sample(points, segment, cumulative[segment - 1], cumulative[segment], target);
      if i > 0 {
        TargetBetween(total, i, count);
        SampleExact(hypot, points, segment, target);
      }
      TargetGrows(total, i, count);
      result := result + [sample];
    }
    result := result[0 := points[0]][count - 1 := points[|points| - 1]];
    LastVertex(hypot, points, |points| - 1);
    TargetBetween(total, count - 1, count);
    return Some(result);
  }
}
