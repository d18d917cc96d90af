/** Snapping clusters to the graph and comparing them with its arcs. */
module TopologyHypotheses {
  import opened Wrappers
  import opened Numbers
  import opened Lexicographic
  import opened Resampling
  import opened CorridorCompatibility
  import opened TopologyInputs
  import opened TopologyMining

  datatype Candidate = Candidate(index: nat, cost: real)

  /** Cheaper, or as cheap with a smaller id. */
  predicate Better(cost: real, id: string, otherCost: real, otherId: string) {
    cost < otherCost || (cost == otherCost && StringLess(id, otherId))
  }

  lemma NotBetterThanItself(cost: real, id: string)
    ensures !Better(cost, id, cost, id)
  {
    hide StringLess;
    StringLessTotal();
  }

  /** `best` is within reach, and nothing within reach is better. */
  ghost predicate IsNearest(plane: Plane, point: Point, nodes: seq<Node>, n: nat, radius: real, best: Candidate)
    requires n <= |nodes|
  {
    && best.index < n
    && best.cost == Distance(plane.hypot, point, nodes[best.index].position) <= radius
    && forall j {:trigger nodes[j]} :: 0 <= j < n && Distance(plane.hypot, point, nodes[j].position) <= radius ==>
      !Better(Distance(plane.hypot, point, nodes[j].position), nodes[j].id, best.cost, nodes[best.index].id)
  }

  /** The node nearest to a point within the radius, the smaller id first among equally near ones. */
  method NearestNode(plane: Plane, point: Point, nodes: seq<Node>, radius: real) returns (best: Option<Candidate>)
    ensures best.None? <==> forall j {:trigger nodes[j]} :: 0 <= j < |nodes| ==>
      Distance(plane.hypot, point, nodes[j].position) > radius
    ensures best.Some? ==> IsNearest(plane, point, nodes, |nodes|, radius, best.value)
  {
    hide Distance, Better;
    best := None;
    for n := 0 to |nodes|
      invariant best.None? <==> forall j {:trigger nodes[j]} :: 0 <= j < n ==>
        Distance(plane.hypot, point, nodes[j].position) > radius
      invariant best.Some? ==> IsNearest(plane, point, nodes, n, radius, best.value)
    {
      var d := Distance(plane.hypot, point, nodes[n].position);
      if d > radius {
        continue;
      }
      if best.None? || Better(d, nodes[n].id, best.value.cost, nodes[best.value.index].id) {
        forall j | 0 <= j < n && Distance(plane.hypot, point, nodes[j].position) <= radius
          ensures !Better(Distance(plane.hypot, point, nodes[j].position), nodes[j].id, d, nodes[n].id)
        {
          NotBetterThan(d, nodes[n].id, best.value.cost, nodes[best.value.index].id,
                        Distance(plane.hypot, point, nodes[j].position), nodes[j].id);
        }
        NotBetterThanItself(d, nodes[n].id);
        best := Some(Candidate(n, d));
      }
    }
  }

  lemma NotBetterThan(a: real, idA: string, b: real, idB: string, c: real, idC: string)
    requires Better(a, idA, b, idB) && !Better(c, idC, b, idB)
    ensures !Better(c, idC, a, idA)
  {
    hide StringLess;
    StringLessTotal();
  }

  /** The nearest node: no node is nearer, and of equally near ones none has a smaller id. */
  lemma NearestMeaning(plane: Plane, point: Point, nodes: seq<Node>, radius: real, best: Candidate, j: nat)
    requires IsNearest(plane, point, nodes, |nodes|, radius, best) && j < |nodes|
    ensures var x, y := nodes[best.index].position, nodes[j].position;
            var d, e := plane.hypot(x.x - point.x, x.y - point.y), plane.hypot(y.x - point.x, y.y - point.y);
            best.cost == d <= radius && d <= e && (d == e ==> !StringLess(nodes[j].id, nodes[best.index].id))
  {
    hide StringLess;
    assert nodes[j] == nodes[j];
  }

  /** How far an arc's geometry lies from a corridor. */
  ghost function ArcError(plane: Plane, p: Parameters, corridor: seq<Point>, arc: Arc): real {
    var shape := ShapeOf(plane, p.resampleCount, arc.geometry);
    if |corridor| == |shape| > 0 then MeanDistance(plane, corridor, shape) else 0.0
  }

  ghost predicate Measurable(plane: Plane, arc: Arc) {
    |arc.geometry| >= 2 && Length(plane, arc.geometry) > 0.0
  }

  /** Every arc of an accepted graph can be resampled, and starts and ends at nodes within the tolerance. */
  lemma AcceptedArcs(plane: Plane, p: Parameters, nodes: seq<Node>, arcs: seq<Arc>)
    requires WellFormedGraph(plane, p, nodes, arcs)
    ensures forall arc :: arc in arcs ==> Measurable(plane, arc) && MeetsEnds(plane, p, nodes, arc)
  {
    hide Length, MeetsEnds;
    forall arc | arc in arcs ensures Measurable(plane, arc) && MeetsEnds(plane, p, nodes, arc) {
      assert WellFormedArc(plane, p, nodes, arc);
    }
  }

  ghost predicate Joins(arc: Arc, start: nat, end: nat) {
    arc.source == start && arc.target == end
  }

  ghost predicate IsBestArc(plane: Plane, p: Parameters, corridor: seq<Point>, arcs: seq<Arc>, n: nat,
                            start: nat, end: nat, best: Candidate)
    requires n <= |arcs|
  {
    && best.index < n && Joins(arcs[best.index], start, end)
    && best.cost == ArcError(plane, p, corridor, arcs[best.index])
    && forall j {:trigger arcs[j]} :: 0 <= j < n && Joins(arcs[j], start, end) ==>
      !Better(ArcError(plane, p, corridor, arcs[j]), arcs[j].id, best.cost, arcs[best.index].id)
  }

  /** The best arc joins the ends; no joining arc has a smaller error, and of equal ones none a smaller id. The error is
      the mean distance of corresponding points. */
  lemma BestArcMeaning(plane: Plane, p: Parameters, corridor: seq<Point>, arcs: seq<Arc>, start: nat, end: nat,
                       best: Candidate, j: nat)
    requires IsBestArc(plane, p, corridor, arcs, |arcs|, start, end, best)
    requires j < |arcs| && arcs[j].source == start && arcs[j].target == end
    ensures arcs[best.index].source == start && arcs[best.index].target == end
    ensures var e := ArcError(plane, p, corridor, arcs[j]);
            best.cost <= e && (best.cost == e ==> !StringLess(arcs[j].id, arcs[best.index].id))
    ensures var shape := ShapeOf(plane, p.resampleCount, arcs[best.index].geometry);
            |corridor| == |shape| > 0 ==>
              best.cost * |corridor| as real == Spread(plane, corridor, shape, |corridor|)
  {
    hide StringLess, ShapeOf, Spread, TotalDistance;
    assert arcs[j] == arcs[j];
    var shape := ShapeOf(plane, p.resampleCount, arcs[best.index].geometry);
    if |corridor| == |shape| > 0 {
      SpreadIs(plane, corridor, shape, |corridor|);
      assert corridor[..|corridor|] == corridor && shape[..|corridor|] == shape;
      MulDiv(TotalDistance(plane, corridor, shape), |corridor| as real);
    }
  }

  method MeasureArc(plane: Plane, p: Parameters, corridor: seq<Point>, arc: Arc) returns (error: real)
    requires plane.Valid() && p.Valid() && |corridor| == p.resampleCount && Measurable(plane, arc)
    ensures error == ArcError(plane, p, corridor, arc)
  {
    hide IsNorm, AtArcLength, ShapeOf, TotalDistance;
    var resampled := Resample(plane.hypot, arc.geometry, p.resampleCount);
    ShapeUnique(plane, p.resampleCount, arc.geometry, resampled.value);
    error := MeanDistance(plane, corridor, resampled.value);
  }

  /** The joining arc that lies nearest to the corridor. */
  method BestArc(plane: Plane, p: Parameters, corridor: seq<Point>, arcs: seq<Arc>, start: nat, end: nat)
    returns (best: Option<Candidate>)
    requires plane.Valid() && p.Valid() && |corridor| == p.resampleCount
    requires forall arc :: arc in arcs ==> Measurable(plane, arc)
    ensures best.None? <==> forall j {:trigger arcs[j]} :: 0 <= j < |arcs| ==> !Joins(arcs[j], start, end)
    ensures best.Some? ==> IsBestArc(plane, p, corridor, arcs, |arcs|, start, end, best.value)
  {
    hide ArcError, Better, IsNorm, Measurable;
    best := None;
    for n := 0 to |arcs|
      invariant best.None? <==> forall j {:trigger arcs[j]} :: 0 <= j < n ==> !Joins(arcs[j], start, end)
      invariant best.Some? ==> IsBestArc(plane, p, corridor, arcs, n, start, end, best.value)
    {
      var arc := arcs[n];
      if arc.source != start || arc.target != end {
        continue;
      }
      var error := MeasureArc(plane, p, corridor, arc);
      if best.None? || Better(error, arc.id, best.value.cost, arcs[best.value.index].id) {
        forall j | 0 <= j < n && Joins(arcs[j], start, end)
          ensures !Better(ArcError(plane, p, corridor, arcs[j]), arcs[j].id, error, arc.id)
        {
          NotBetterThan(error, arc.id, best.value.cost, arcs[best.value.index].id,
                        ArcError(plane, p, corridor, arcs[j]), arcs[j].id);
        }
        NotBetterThanItself(error, arc.id);
        best := Some(Candidate(n, error));
      }
    }
  }

  datatype Hypothesis =
    | MissingConnection(start: nat, end: nat, endpointError: real)
    | GeometryDisagreement(start: nat, end: nat, arc: nat, endpointError: real, meanError: real)

  /** Enough independent traversals, snapped at both ends to two different nodes. */
  ghost predicate Eligible(p: Parameters, traversals: nat, start: Option<Candidate>, end: Option<Candidate>) {
    traversals >= p.minimumTraversals && start.Some? && end.Some? && start.value.index != end.value.index
  }

  /**
   * A connection is missing when no arc joins the snapped ends; geometry disagrees when arcs join
   * them and all of these lie beyond the limit.
   */
  method Hypothesize(plane: Plane, p: Parameters, corridor: seq<Point>, arcs: seq<Arc>, traversals: nat,
                     start: Option<Candidate>, end: Option<Candidate>) returns (h: Option<Hypothesis>)
    requires plane.Valid() && p.Valid() && |corridor| == p.resampleCount
    requires forall arc :: arc in arcs ==> Measurable(plane, arc)
    ensures h.Some? ==> Eligible(p, traversals, start, end)
    ensures h.Some? ==> h.value.start == start.value.index && h.value.end == end.value.index
    ensures h.Some? ==> h.value.endpointError >= start.value.cost && h.value.endpointError >= end.value.cost
    ensures h.Some? ==> h.value.endpointError in {start.value.cost, end.value.cost}
    ensures (h.Some? && h.value.MissingConnection?) <==> (
      && Eligible(p, traversals, start, end)
      && forall j {:trigger arcs[j]} :: 0 <= j < |arcs| ==> !Joins(arcs[j], start.value.index, end.value.index))
    ensures (h.Some? && h.value.GeometryDisagreement?) <==> (
      && Eligible(p, traversals, start, end)
      && (exists j {:trigger arcs[j]} :: 0 <= j < |arcs| && Joins(arcs[j], start.value.index, end.value.index))
      && forall j {:trigger arcs[j]} :: 0 <= j < |arcs| && Joins(arcs[j], start.value.index, end.value.index) ==>
        ArcError(plane, p, corridor, arcs[j]) > p.disagreementDistance)
    ensures h.Some? && h.value.GeometryDisagreement? ==>
      IsBestArc(plane, p, corridor, arcs, |arcs|, h.value.start, h.value.end, Candidate(h.value.arc, h.value.meanError))
  {
    hide ArcError, IsNorm, Measurable, StringLess;
    if traversals < p.minimumTraversals || start.None? || end.None? || start.value.index == end.value.index {
      return None;
    }
    var source, target := start.value.index, end.value.index;
    var best := BestArc(plane, p, corridor, arcs, source, target);
    var endpointError := if start.value.cost < end.value.cost then end.value.cost else start.value.cost;
    if best.None? {
      return Some(MissingConnection(source, target, endpointError));
    }
    if best.value.cost > p.disagreementDistance {
      return Some(GeometryDisagreement(source, target, best.value.index, endpointError, best.value.cost));
    }
    return None;
  }
}
