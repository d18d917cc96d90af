/** When two resampled corridors may share a cluster (`heading_difference`, `compatible`). */
module CorridorCompatibility {
  import opened Numbers
  import opened Resampling

  const PI: real := 3.141592653589793238462643383279502884
  const TURN: real := 2.0 * PI

  /** Nearest integer, ties to even: the quotient that std::remainder uses. */
  function NearestEven(q: real): int {
    var below := q.Floor;
    var rest := q - below as real;
    if rest < 0.5 || (rest == 0.5 && below % 2 == 0) then below else below + 1
  }

  function Remainder(x: real, y: real): real
    requires y != 0.0
  {
    x - NearestEven(x / y) as real * y
  }

  function HeadingDifference(left: real, right: real): real {
    Abs(Remainder(left - right, TURN))
  }

  lemma NearestEvenNear(q: real, n: int)
    ensures Abs(q - NearestEven(q) as real) <= 0.5
    ensures Abs(q - NearestEven(q) as real) <= Abs(q - n as real)
  {
    var below := q.Floor;
    assert below as real <= q < below as real + 1.0;
    if n <= below {
      assert n as real <= below as real;
    } else {
      assert n as real >= (below + 1) as real;
    }
  }

  lemma NearestEvenOdd(q: real)
    ensures NearestEven(-q) == -NearestEven(q)
  {
    var below, other := q.Floor, (-q).Floor;
    assert below as real <= q < below as real + 1.0;
    assert other as real <= -q < other as real + 1.0;
    if q == below as real {
      assert other == -below;
    } else {
      assert other == -below - 1;
    }
  }

  lemma TurnTimes(q: real, n: int)
    ensures Abs(q * TURN - n as real * TURN) == Abs(q - n as real) * TURN
  {
    assert q * TURN - n as real * TURN == (q - n as real) * TURN;
  }

  lemma InTurns(left: real, right: real) returns (q: real)
    ensures left - right == q * TURN
    ensures HeadingDifference(left, right) == Abs(q - NearestEven(q) as real) * TURN
  {
    hide NearestEven;
    q := (left - right) / TURN;
    TurnTimes(q, NearestEven(q));
  }

  /** The difference of two headings is the shorter way round, whatever turns either has accumulated. */
  lemma HeadingDifferenceShortest(left: real, right: real, turns: int)
    ensures 0.0 <= HeadingDifference(left, right) <= PI
    ensures HeadingDifference(left, right) <= Abs(left - right - turns as real * TURN)
  {
    hide HeadingDifference, NearestEven;
    var q := InTurns(left, right);
    NearestEvenNear(q, turns);
    TurnTimes(q, turns);
    assert Abs(left - right - turns as real * TURN) == Abs(q - turns as real) * TURN;
  }

  lemma HeadingDifferenceSymmetric(left: real, right: real)
    ensures HeadingDifference(left, right) == HeadingDifference(right, left)
  {
    hide HeadingDifference, NearestEven;
    var q := InTurns(left, right);
    var q' := InTurns(right, left);
    assert q' == -q;
    NearestEvenOdd(q);
  }

  datatype Parameters = Parameters(
    minimumQuality: real, minimumLength: real, resampleCount: nat,
    maximumMeanDistance: real, maximumEndpointDistance: real, maximumHeadingDifference: real,
    minimumTraversals: nat, snapRadius: real, disagreementDistance: real, graphTolerance: real,
    maximumIntervals: nat, maximumPointsPerInterval: nat, maximumTotalPoints: nat,
    maximumNodes: nat, maximumArcs: nat, maximumPointsPerArc: nat, maximumGraphPoints: nat,
    maximumComparisons: nat, maximumClusters: nat)
  {
    predicate Valid() {
      && 0.0 <= minimumQuality <= 1.0 && minimumLength > 0.0 && resampleCount >= 2
      && maximumMeanDistance > 0.0 && maximumEndpointDistance > 0.0 && 0.0 <= maximumHeadingDifference <= PI
      && minimumTraversals > 0 && snapRadius > 0.0 && disagreementDistance > 0.0 && graphTolerance >= 0.0
      && maximumIntervals > 0 && maximumPointsPerInterval >= 2 && maximumTotalPoints >= 2
      && maximumNodes > 0 && maximumArcs > 0 && maximumPointsPerArc >= 2 && maximumGraphPoints >= 2
      && maximumComparisons > 0 && maximumClusters > 0
    }
  }

  /** The two functions of the plane taken from the C++ mathematics library. */
  datatype Plane = Plane(hypot: Hypot, atan2: (real, real) -> real)
  {
    ghost predicate Valid() { IsNorm(hypot) }
  }

  function Heading(plane: Plane, shape: seq<Point>): real
    requires shape != []
  {
    var start, end := shape[0], shape[|shape| - 1];
    plane.atan2(end.y - start.y, end.x - start.x)
  }

  function TotalDistance(plane: Plane, left: seq<Point>, right: seq<Point>): real
    requires |left| == |right|
  {
    if left == [] then 0.0
    else
      var last := |left| - 1;
      TotalDistance(plane, left[..last], right[..last]) + Distance(plane.hypot, left[last], right[last])
  }

  function MeanDistance(plane: Plane, left: seq<Point>, right: seq<Point>): real
    requires |left| == |right| > 0
  {
    TotalDistance(plane, left, right) / |left| as real
  }

  /** Resampling gives every corridor the same number of points. */
  predicate Compatible(plane: Plane, p: Parameters, left: seq<Point>, right: seq<Point>) {
    && |left| == |right| > 0
    && HeadingDifference(Heading(plane, left), Heading(plane, right)) <= p.maximumHeadingDifference
    && Distance(plane.hypot, left[0], right[0]) <= p.maximumEndpointDistance
    && Distance(plane.hypot, left[|left| - 1], right[|right| - 1]) <= p.maximumEndpointDistance
    && MeanDistance(plane, left, right) <= p.maximumMeanDistance
  }

  lemma {:induction false} TotalDistanceSymmetric(plane: Plane, left: seq<Point>, right: seq<Point>)
    requires plane.Valid() && |left| == |right|
    ensures TotalDistance(plane, left, right) == TotalDistance(plane, right, left)
  {
    if left != [] {
      var last := |left| - 1;
      TotalDistanceSymmetric(plane, left[..last], right[..last]);
      DistanceSymmetric(plane.hypot, left[last], right[last]);
    }
  }

  lemma CompatibleSymmetric(plane: Plane, p: Parameters, left: seq<Point>, right: seq<Point>)
    requires plane.Valid()
    ensures Compatible(plane, p, left, right) == Compatible(plane, p, right, left)
  {
    hide IsNorm, Distance, TotalDistance, HeadingDifference;
    if |left| == |right| > 0 {
      HeadingDifferenceSymmetric(Heading(plane, left), Heading(plane, right));
      DistanceSymmetric(plane.hypot, left[0], right[0]);
      DistanceSymmetric(plane.hypot, left[|left| - 1], right[|right| - 1]);
      TotalDistanceSymmetric(plane, left, right);
    }
  }

  // ----- compatibility in plain terms -----

  /** Distances between the first `n` corresponding points together. */
  function Spread(plane: Plane, left: seq<Point>, right: seq<Point>, n: nat): real
    requires n <= |left| && n <= |right|
  {
    if n == 0 then 0.0
    else Spread(plane, left, right, n - 1) +
         plane.hypot(right[n - 1].x - left[n - 1].x, right[n - 1].y - left[n - 1].y)
  }

  function Turned(heading: real, turns: int): real { heading + turns as real * (2.0 * PI) }

  /** Two headings are at most `limit` apart after some whole number of turns. */
  ghost predicate Aligned(left: real, right: real, limit: real) {
    exists turns :: -limit <= left - Turned(right, turns) <= limit
  }

  /** The same number of points, nearly one direction, ends near each other, and close on average. */
  ghost predicate Alike(plane: Plane, p: Parameters, left: seq<Point>, right: seq<Point>) {
    var n := |left|;
    && |right| == n > 0
    && Aligned(plane.atan2(left[n - 1].y - left[0].y, left[n - 1].x - left[0].x),
               plane.atan2(right[n - 1].y - right[0].y, right[n - 1].x - right[0].x), p.maximumHeadingDifference)
    && plane.hypot(right[0].x - left[0].x, right[0].y - left[0].y) <= p.maximumEndpointDistance
    && plane.hypot(right[n - 1].x - left[n - 1].x, right[n - 1].y - left[n - 1].y) <= p.maximumEndpointDistance
    && Spread(plane, left, right, n) <= n as real * p.maximumMeanDistance
  }

  lemma AlignedMeaning(left: real, right: real, limit: real)
    ensures HeadingDifference(left, right) <= limit <==> Aligned(left, right, limit)
  {
    var turns := NearestEven((left - right) / TURN);
    assert HeadingDifference(left, right) == Abs(left - Turned(right, turns));
    forall turns | -limit <= left - Turned(right, turns) <= limit
      ensures HeadingDifference(left, right) <= limit
    {
      assert left - Turned(right, turns) == left - right - turns as real * TURN;
      HeadingDifferenceShortest(left, right, turns);
    }
  }

  lemma {:induction false} SpreadIs(plane: Plane, left: seq<Point>, right: seq<Point>, n: nat)
    requires n <= |left| == |right|
    ensures TotalDistance(plane, left[..n], right[..n]) == Spread(plane, left, right, n)
  {
    if n > 0 {
      SpreadIs(plane, left, right, n - 1);
      assert left[..n][..n - 1] == left[..n - 1] && right[..n][..n - 1] == right[..n - 1];
    }
  }

  lemma MeanMeaning(total: real, n: nat, limit: real)
    requires n > 0
    ensures total / n as real <= limit <==> total <= n as real * limit
  {
    MulDiv(total, n as real);
    MulMonotone(total / n as real, limit, n as real);
  }

  /** Corridors are compatible exactly when they are alike. */
  lemma CompatibleMeaning(plane: Plane, p: Parameters, left: seq<Point>, right: seq<Point>)
    ensures Compatible(plane, p, left, right) <==> Alike(plane, p, left, right)
  {
    hide HeadingDifference, TotalDistance, Aligned, Spread;
    if |left| == |right| > 0 {
      AlignedMeaning(Heading(plane, left), Heading(plane, right), p.maximumHeadingDifference);
      SpreadIs(plane, left, right, |left|);
      assert left[..|left|] == left && right[..|right|] == right;
      MeanMeaning(TotalDistance(plane, left, right), |left|, p.maximumMeanDistance);
    }
  }

  lemma {:induction false} NoSpread(plane: Plane, shape: seq<Point>, n: nat)
    requires plane.Valid() && n <= |shape|
    ensures Spread(plane, shape, shape, n) == 0.0
  {
    if n > 0 {
      NoSpread(plane, shape, n - 1);
    }
  }

  /** A corridor travelled twice is alike. */
  lemma AlikeItself(plane: Plane, p: Parameters, shape: seq<Point>)
    requires plane.Valid() && p.Valid() && shape != []
    ensures Alike(plane, p, shape, shape)
  {
    hide Spread;
    NoSpread(plane, shape, |shape|);
    var heading := Heading(plane, shape);
    assert -p.maximumHeadingDifference <= heading - Turned(heading, 0) <= p.maximumHeadingDifference;
    assert |shape| as real * p.maximumMeanDistance >= 0.0;
  }
}
