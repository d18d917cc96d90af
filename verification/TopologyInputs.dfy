/** What the miner accepts as input (`validate_inputs`). */
module TopologyInputs {
  import opened Resampling
  import opened CorridorCompatibility

  datatype Interval = Interval(
    id: string, sequenceId: string, traversalId: string, groupId: string,
    offMap: bool, observable: bool, directionConfident: bool, stationary: bool,
    quality: real, points: seq<Point>)

  datatype Node = Node(id: string, position: Point)

  datatype Arc = Arc(id: string, source: nat, target: nat, geometry: seq<Point>)

  // ----- polylines -----

  ghost function Length(plane: Plane, points: seq<Point>): real {
    if points == [] then 0.0 else ArcLength(plane.hypot, points, |points| - 1)
  }

  method PolylineLength(plane: Plane, points: seq<Point>) returns (length: real)
    ensures length == Length(plane, points)
  {
    length := 0.0;
    var k := 1;
    while k < |points|
      invariant 1 <= k && (points != [] ==> k <= |points|)
      invariant length == if points == [] then 0.0 else ArcLength(plane.hypot, points, k - 1)
    {
      length := length + Distance(plane.hypot, points[k - 1], points[k]);
      k := k + 1;
    }
  }

  ghost predicate WellFormedPoints(plane: Plane, points: seq<Point>, maximum: nat) {
    2 <= |points| <= maximum && Length(plane, points) > 0.0
  }

  method ValidatePoints(plane: Plane, points: seq<Point>, maximum: nat) returns (ok: bool)
    ensures ok <==> WellFormedPoints(plane, points, maximum)
  {
    if |points| < 2 || |points| > maximum {
      return false;
    }
    var length := PolylineLength(plane, points);
    return length > 0.0;
  }

  /** Points of several polylines together. */
  ghost function PointTotal<T>(s: seq<T>, points: T -> seq<Point>): nat {
    if s == [] then 0 else PointTotal(s[..|s| - 1], points) + |points(s[|s| - 1])|
  }

  lemma {:induction false} PointTotalGrows<T>(s: seq<T>, points: T -> seq<Point>, n: nat)
    requires n <= |s|
    ensures PointTotal(s[..n], points) <= PointTotal(s, points)
  {
    if n == |s| {
      assert s[..n] == s;
    } else {
      PointTotalGrows(s[..|s| - 1], points, n);
      assert s[..|s| - 1][..n] == s[..n];
    }
  }

  lemma PointTotalStep<T>(s: seq<T>, points: T -> seq<Point>, n: nat)
    requires n < |s|
    ensures PointTotal(s[..n + 1], points) == PointTotal(s[..n], points) + |points(s[n])|
    ensures PointTotal(s[..n + 1], points) <= PointTotal(s, points)
    ensures PointTotal(s[..0], points) == 0
  {
    assert s[..n + 1][..n] == s[..n];
    PointTotalGrows(s, points, n + 1);
  }

  // ----- intervals -----

  function IntervalPoints(v: Interval): seq<Point> { v.points }

  ghost predicate WellFormedInterval(plane: Plane, p: Parameters, v: Interval) {
    && v.id != "" && v.sequenceId != "" && v.traversalId != "" && v.groupId != ""
    && 0.0 <= v.quality <= 1.0 && WellFormedPoints(plane, v.points, p.maximumPointsPerInterval)
  }

  ghost predicate UniqueIds(s: seq<Interval>) {
    forall i, j :: 0 <= i < j < |s| ==> s[i].id != s[j].id
  }

  ghost predicate WellFormed(plane: Plane, p: Parameters, s: seq<Interval>) {
    && |s| <= p.maximumIntervals && (forall v :: v in s ==> WellFormedInterval(plane, p, v))
    && UniqueIds(s) && PointTotal(s, IntervalPoints) <= p.maximumTotalPoints
  }

  /** The checks of every interval, stopping at the first failure. */
  method ValidateIntervals(plane: Plane, p: Parameters, s: seq<Interval>) returns (ok: bool)
    ensures ok <==> WellFormed(plane, p, s)
  {
    hide WellFormedPoints, PointTotal;
    if |s| > p.maximumIntervals {
      return false;
    }
    var ids: set<string> := {};
    var total := 0;
    NoPoints(s, IntervalPoints);
    for n := 0 to |s|
      invariant forall v :: v in s[..n] ==> WellFormedInterval(plane, p, v)
      invariant UniqueIds(s[..n]) && ids == set i | 0 <= i < n :: s[i].id
      invariant total == PointTotal(s[..n], IntervalPoints) <= p.maximumTotalPoints
    {
      var v := s[n];
      assert v in s && (v.id in ids ==> !UniqueIds(s));
      if v.id == "" || v.sequenceId == "" || v.traversalId == "" || v.groupId == "" || v.id in ids
         || v.quality < 0.0 || v.quality > 1.0 {
        return false;
      }
      var shaped := ValidatePoints(plane, v.points, p.maximumPointsPerInterval);
      if !shaped {
        return false;
      }
      PointTotalStep(s, IntervalPoints, n);
      if |v.points| > p.maximumTotalPoints || total > p.maximumTotalPoints - |v.points| {
        return false;
      }
      ids := ids + {v.id};
      total := total + |v.points|;
      assert s[..n + 1] == s[..n] + [v];
    }
    assert s[..|s|] == s;
    return true;
  }

  lemma NoPoints<T>(s: seq<T>, points: T -> seq<Point>)
    ensures PointTotal(s[..0], points) == 0
  {
  }

  // ----- the graph -----

  function Geometry(arc: Arc): seq<Point> { arc.geometry }

  ghost predicate UniqueNodeIds(nodes: seq<Node>) {
    forall i, j :: 0 <= i < j < |nodes| ==> nodes[i].id != nodes[j].id
  }

  ghost predicate UniqueArcIds(arcs: seq<Arc>) {
    forall i, j :: 0 <= i < j < |arcs| ==> arcs[i].id != arcs[j].id
  }

  /** An arc's polyline begins and ends at its nodes, up to the tolerance. */
  ghost predicate MeetsEnds(plane: Plane, p: Parameters, nodes: seq<Node>, arc: Arc) {
    && arc.geometry != [] && arc.source < |nodes| && arc.target < |nodes|
    && Distance(plane.hypot, arc.geometry[0], nodes[arc.source].position) <= p.graphTolerance
    && Distance(plane.hypot, arc.geometry[|arc.geometry| - 1], nodes[arc.target].position) <= p.graphTolerance
  }

  ghost predicate WellFormedArc(plane: Plane, p: Parameters, nodes: seq<Node>, arc: Arc) {
    arc.id != "" && WellFormedPoints(plane, arc.geometry, p.maximumPointsPerArc) && MeetsEnds(plane, p, nodes, arc)
  }

  ghost predicate WellFormedGraph(plane: Plane, p: Parameters, nodes: seq<Node>, arcs: seq<Arc>) {
    && |nodes| <= p.maximumNodes && |arcs| <= p.maximumArcs
    && (forall node :: node in nodes ==> node.id != "") && UniqueNodeIds(nodes)
    && (forall arc :: arc in arcs ==> WellFormedArc(plane, p, nodes, arc)) && UniqueArcIds(arcs)
    && PointTotal(arcs, Geometry) <= p.maximumGraphPoints
  }

  method ValidateNodes(nodes: seq<Node>) returns (ok: bool)
    ensures ok <==> (forall node :: node in nodes ==> node.id != "") && UniqueNodeIds(nodes)
  {
    var ids: set<string> := {};
    for n := 0 to |nodes|
      invariant forall node :: node in nodes[..n] ==> node.id != ""
      invariant UniqueNodeIds(nodes[..n]) && ids == set i | 0 <= i < n :: nodes[i].id
    {
      var node := nodes[n];
      assert node in nodes && (node.id in ids ==> !UniqueNodeIds(nodes));
      if node.id == "" || node.id in ids {
        return false;
      }
      ids := ids + {node.id};
      assert nodes[..n + 1] == nodes[..n] + [node];
    }
    assert nodes[..|nodes|] == nodes;
    return true;
  }

  /** The checks of one arc but for its id being new. */
  method ValidateArc(plane: Plane, p: Parameters, nodes: seq<Node>, arc: Arc) returns (ok: bool)
    ensures ok <==> WellFormedArc(plane, p, nodes, arc)
  {
    hide Length, Distance;
    if arc.id == "" || arc.source >= |nodes| || arc.target >= |nodes| {
      return false;
    }
    var shaped := ValidatePoints(plane, arc.geometry, p.maximumPointsPerArc);
    if !shaped {
      return false;
    }
    return Distance(plane.hypot, arc.geometry[0], nodes[arc.source].position) <= p.graphTolerance &&
           Distance(plane.hypot, arc.geometry[|arc.geometry| - 1], nodes[arc.target].position) <= p.graphTolerance;
  }

  method ValidateGraph(plane: Plane, p: Parameters, nodes: seq<Node>, arcs: seq<Arc>) returns (ok: bool)
    ensures ok <==> WellFormedGraph(plane, p, nodes, arcs)
  {
    hide WellFormedArc, PointTotal, UniqueNodeIds;
    if |nodes| > p.maximumNodes || |arcs| > p.maximumArcs {
      return false;
    }
    var named := ValidateNodes(nodes);
    if !named {
      return false;
    }
    var ids: set<string> := {};
    var total := 0;
    NoPoints(arcs, Geometry);
    for n := 0 to |arcs|
      invariant forall arc :: arc in arcs[..n] ==> WellFormedArc(plane, p, nodes, arc)
      invariant UniqueArcIds(arcs[..n]) && ids == set i | 0 <= i < n :: arcs[i].id
      invariant total == PointTotal(arcs[..n], Geometry) <= p.maximumGraphPoints
    {
      var arc := arcs[n];
      assert arc in arcs && (arc.id in ids ==> !UniqueArcIds(arcs));
      var shaped := ValidateArc(plane, p, nodes, arc);
      if !shaped || arc.id in ids {
        return false;
      }
      PointTotalStep(arcs, Geometry, n);
      if |arc.geometry| > p.maximumGraphPoints || total > p.maximumGraphPoints - |arc.geometry| {
        return false;
      }
      ids := ids + {arc.id};
      total := total + |arc.geometry|;
      assert arcs[..n + 1] == arcs[..n] + [arc];
    }
    assert arcs[..|arcs|] == arcs;
    return true;
  }

  /** Intervals and graph are accepted exactly when every check holds. */
  method Validate(plane: Plane, p: Parameters, s: seq<Interval>, nodes: seq<Node>, arcs: seq<Arc>) returns (ok: bool)
    ensures ok <==> WellFormed(plane, p, s) && WellFormedGraph(plane, p, nodes, arcs)
  {
    hide WellFormed, WellFormedGraph;
    var intervals := ValidateIntervals(plane, p, s);
    if !intervals {
      return false;
    }
    ok := ValidateGraph(plane, p, nodes, arcs);
  }
}
