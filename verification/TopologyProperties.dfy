/** What mining guarantees about its clusters. */
module TopologyProperties {
  import opened Wrappers
  import opened Lexicographic
  import opened Sorting
  import opened Clustering
  import opened Resampling
  import opened CorridorCompatibility
  import opened TopologyInputs
  import opened TopologyMining

  lemma CanonicalOrders(items: seq<Item>)
    ensures Ordering(items, Canonical(items))
  {
    hide Sorted;
    ByIdWeak();
    var r := SortedExists(ById, items);
    assert Ordering(items, r);
  }

  /** The mined clusters are the only first fit of the selected intervals in id order: a partition into clusters of
      pairwise compatible intervals, where an interval was refused by an earlier member of every earlier cluster. */
  lemma MinedClusters(plane: Plane, p: Parameters, s: seq<Interval>, nodes: seq<Node>, arcs: seq<Arc>,
                      clusters: seq<seq<Item>>)
    requires plane.Valid() && Mined(plane, p, s, nodes, arcs) == Ok(clusters)
    ensures |clusters| <= p.maximumClusters && multiset(Flatten(clusters)) == multiset(Candidates(plane, p, s))
    ensures IsFirstFit(Fits(plane, p), Canonical(Candidates(plane, p, s)), clusters)
    ensures forall others ::
              IsFirstFit(Fits(plane, p), Canonical(Candidates(plane, p, s)), others) ==> others == clusters
    ensures forall c :: 0 <= c < |clusters| ==> MutuallyFit(Fits(plane, p), clusters[c]) && Sorted(ById, clusters[c])
  {
    hide Sorted, Fits, WellFormed, MutuallyFit, IsNorm, FirstFit, Candidates, Canonical, AllLinked, Refused,
         MembersInOrder, NoDuplicates;
    var items := Canonical(Candidates(plane, p, s));
    CanonicalOrders(Candidates(plane, p, s));
    FitsSymmetric(plane, p);
    FirstFitIs(Fits(plane, p), items);
    FirstFitLinked(Fits(plane, p), items);
    FirstFitKeepsOrder(Fits(plane, p), ById, items);
    CanonicalDistinct(plane, p, s);
    forall others | IsFirstFit(Fits(plane, p), items, others) ensures others == clusters {
      FirstFitUnique(Fits(plane, p), items, others);
    }
  }

  lemma CanonicalDistinct(plane: Plane, p: Parameters, s: seq<Interval>)
    requires WellFormed(plane, p, s)
    ensures NoDuplicates(Canonical(Candidates(plane, p, s)))
  {
    hide Candidates, Canonical, Sorted, WellFormedInterval, PointTotal;
    var items := Candidates(plane, p, s);
    CanonicalOrders(items);
    CandidatesDistinct(plane, p, s);
    assert NoDuplicates(items);
    PermutationNoDuplicates(Canonical(items), items);
  }

  // ----- clusters in plain terms -----

  /** Ranges of the parameters: shares, lengths and limits, counts of polyline points, and budgets. */
  ghost predicate InRange(p: Parameters) {
    && !(p.minimumQuality < 0.0) && !(p.minimumQuality > 1.0) && !(p.graphTolerance < 0.0)
    && !(p.maximumHeadingDifference < 0.0) && !(p.maximumHeadingDifference > PI)
    && (forall x :: x in [p.minimumLength, p.maximumMeanDistance, p.maximumEndpointDistance] ==> x > 0.0)
    && (forall x :: x in [p.snapRadius, p.disagreementDistance] ==> x > 0.0)
    && (forall n :: n in [p.resampleCount, p.maximumPointsPerInterval, p.maximumTotalPoints] ==> n >= 2)
    && (forall n :: n in [p.maximumPointsPerArc, p.maximumGraphPoints] ==> n >= 2)
    && (forall n :: n in [p.minimumTraversals, p.maximumIntervals, p.maximumNodes] ==> n != 0)
    && (forall n :: n in [p.maximumArcs, p.maximumComparisons, p.maximumClusters] ==> n != 0)
  }

  /** Mining refuses exactly the parameters out of range. */
  lemma ParametersMeaning(p: Parameters)
    ensures p.Valid() <==> InRange(p)
  {
    if InRange(p) {
      var lengths, limits := [p.minimumLength, p.maximumMeanDistance, p.maximumEndpointDistance],
                             [p.snapRadius, p.disagreementDistance];
      var points, more := [p.resampleCount, p.maximumPointsPerInterval, p.maximumTotalPoints],
                          [p.maximumPointsPerArc, p.maximumGraphPoints];
      var counts, budgets := [p.minimumTraversals, p.maximumIntervals, p.maximumNodes],
                             [p.maximumArcs, p.maximumComparisons, p.maximumClusters];
      assert lengths[0] in lengths && lengths[1] in lengths && lengths[2] in lengths;
      assert limits[0] in limits && limits[1] in limits;
      assert points[0] in points && points[1] in points && points[2] in points;
      assert more[0] in more && more[1] in more;
      assert counts[0] in counts && counts[1] in counts && counts[2] in counts;
      assert budgets[0] in budgets && budgets[1] in budgets && budgets[2] in budgets;
    }
  }

  /** Off the map, observable, moving one way, well positioned, long enough, and not a loop. */
  ghost predicate Minable(plane: Plane, p: Parameters, v: Interval) {
    && v.offMap && v.observable && v.directionConfident && !v.stationary
    && v.quality >= p.minimumQuality && v.points != []
    && ArcLength(plane.hypot, v.points, |v.points| - 1) >= p.minimumLength
    && var first, last := v.points[0], v.points[|v.points| - 1];
       plane.hypot(last.x - first.x, last.y - first.y) > p.graphTolerance
  }

  /** An interval is selected exactly when nothing speaks against it, and otherwise counted for the first thing that
      does; a direction is also missing when the interval ends where it began. */
  lemma ScreenedMeaning(plane: Plane, p: Parameters, v: Interval)
    requires p.Valid()
    ensures Screened(plane, p, v) == Selected <==> Minable(plane, p, v)
    ensures Screened(plane, p, v) == NotOffMap <==> !v.offMap
    ensures Screened(plane, p, v) == Unobservable <==> v.offMap && !v.observable
    ensures var directed := v.offMap && v.observable && v.directionConfident;
            && (Screened(plane, p, v) == Stationary <==> directed && v.stationary)
            && (Screened(plane, p, v) == LowQuality <==> directed && !v.stationary && v.quality < p.minimumQuality)
            && (Screened(plane, p, v) == Short <==>
                  directed && !v.stationary && v.quality >= p.minimumQuality &&
                  Length(plane, v.points) < p.minimumLength)
  {
  }

  /** Candidates are exactly the minable intervals, each with its points at equal steps of arc length. */
  lemma {:induction false} CandidatesMeaning(plane: Plane, p: Parameters, s: seq<Interval>, x: Item)
    requires p.Valid() && plane.Valid()
    ensures x in Candidates(plane, p, s) <==>
              x.interval in s && Minable(plane, p, x.interval) &&
              x.shape == ShapeOf(plane, p.resampleCount, x.interval.points)
  {
    hide Minable, Screened, IsNorm, ShapeOf;
    if s != [] {
      var front, v := s[..|s| - 1], s[|s| - 1];
      CandidatesMeaning(plane, p, front, x);
      ScreenedMeaning(plane, p, v);
      assert s == front + [v];
    }
  }

  /** Intervals are clustered in increasing order of their ids. */
  lemma CanonicalMeaning(plane: Plane, p: Parameters, s: seq<Interval>)
    requires WellFormed(plane, p, s)
    ensures var items := Canonical(Candidates(plane, p, s));
            multiset(items) == multiset(Candidates(plane, p, s)) &&
            forall i, j :: 0 <= i < j < |items| ==> StringLess(items[i].interval.id, items[j].interval.id)
  {
    hide Candidates, Canonical, WellFormedInterval, PointTotal, StringLess, UniqueIds;
    var items := Canonical(Candidates(plane, p, s));
    CanonicalOrders(Candidates(plane, p, s));
    CandidatesDistinct(plane, p, s);
    DistinctComparable(Candidates(plane, p, s));
    ComparablePermuted(Candidates(plane, p, s), items);
    CanonicalDistinct(plane, p, s);
    StringLessTotal();
    forall i, j | 0 <= i < j < |items| ensures StringLess(items[i].interval.id, items[j].interval.id) {
      assert items[i] in items && items[j] in items && items[i] != items[j];
      assert !ById(items[j], items[i]);
    }
  }

  /** Any two members of a cluster are alike, and were minable. */
  lemma ClusterMeaning(plane: Plane, p: Parameters, s: seq<Interval>, nodes: seq<Node>, arcs: seq<Arc>,
                       clusters: seq<seq<Item>>, c: nat, i: nat, j: nat)
    requires plane.Valid() && Mined(plane, p, s, nodes, arcs) == Ok(clusters)
    requires c < |clusters| && i < |clusters[c]| && j < |clusters[c]| && i != j
    ensures Alike(plane, p, clusters[c][i].shape, clusters[c][j].shape)
    ensures clusters[c][i].interval in s && Minable(plane, p, clusters[c][i].interval)
    ensures clusters[c][i].shape == ShapeOf(plane, p.resampleCount, clusters[c][i].interval.points)
  {
    hide Alike, Compatible, Sorted, WellFormed, WellFormedGraph, IsNorm, FirstFit, Candidates, Canonical, IsFirstFit,
         Minable, Flatten, ShapeOf;
    var x, y := clusters[c][i], clusters[c][j];
    MinedClusters(plane, p, s, nodes, arcs, clusters);
    FitsSymmetric(plane, p);
    assert Fits(plane, p)(x, y);
    CompatibleMeaning(plane, p, x.shape, y.shape);
    InFlatten(clusters, c, i);
    PermutationFacts(Flatten(clusters), Candidates(plane, p, s));
    CandidatesMeaning(plane, p, s, x);
  }

  /** Members of two clusters, the later one refused: some earlier member of the earlier cluster is unlike it. */
  lemma RefusalMeaning(plane: Plane, p: Parameters, x: Item, y: Item)
    ensures Fits(plane, p)(x, y) <==> Alike(plane, p, x.shape, y.shape)
  {
    CompatibleMeaning(plane, p, x.shape, y.shape);
  }

  // ----- independence of the input order -----

  /** How often an item is a candidate depends only on how often its interval was given. */
  lemma {:induction false} CandidateMultiplicity(plane: Plane, p: Parameters, s: seq<Interval>, x: Item)
    ensures multiset(Candidates(plane, p, s))[x] ==
      if Screened(plane, p, x.interval).Selected? && x == ItemOf(plane, p, x.interval)
      then multiset(s)[x.interval] else 0
  {
    hide Candidates, CountOf, Screened, ItemOf;
    if s == [] {
      ScreenStart(plane, p, s);
      assert s[..0] == s;
    } else {
      var n := |s| - 1;
      CandidateMultiplicity(plane, p, s[..n], x);
      ScreenStep(plane, p, s, n);
      assert s[..n + 1] == s && s == s[..n] + [s[n]];
      ItemInterval(plane, p, s[n]);
    }
  }

  lemma CandidatesPermuted(plane: Plane, p: Parameters, a: seq<Interval>, b: seq<Interval>)
    requires multiset(a) == multiset(b)
    ensures multiset(Candidates(plane, p, a)) == multiset(Candidates(plane, p, b))
  {
    hide Candidates, Screened, ItemOf;
    forall x ensures multiset(Candidates(plane, p, a))[x] == multiset(Candidates(plane, p, b))[x] {
      CandidateMultiplicity(plane, p, a, x);
      CandidateMultiplicity(plane, p, b, x);
    }
  }

  lemma {:induction false} PointTotalWithout(s: seq<Interval>, k: nat)
    requires k < |s|
    ensures PointTotal(s, IntervalPoints) == PointTotal(s[..k] + s[k + 1..], IntervalPoints) + |s[k].points|
  {
    var without := s[..k] + s[k + 1..];
    if k == |s| - 1 {
      assert without == s[..k];
    } else {
      PointTotalWithout(s[..|s| - 1], k);
      assert without[..|without| - 1] == s[..|s| - 1][..k] + s[..|s| - 1][k + 1..];
      assert without[|without| - 1] == s[|s| - 1];
    }
  }

  lemma {:induction false} PointTotalPermuted(a: seq<Interval>, b: seq<Interval>)
    requires multiset(a) == multiset(b)
    ensures PointTotal(a, IntervalPoints) == PointTotal(b, IntervalPoints)
  {
    PermutationFacts(a, b);
    if a != [] {
      var k := RemoveOne(a, b);
      PointTotalPermuted(a[..|a| - 1], b[..k] + b[k + 1..]);
      PointTotalWithout(b, k);
    }
  }

  lemma UniqueIdsPermuted(a: seq<Interval>, b: seq<Interval>)
    requires multiset(a) == multiset(b) && UniqueIds(a)
    ensures UniqueIds(b)
  {
    PermutationFacts(a, b);
    assert NoDuplicates(a) by {
      forall i, j | 0 <= i < j < |a| ensures a[i] != a[j] {
        assert a[i].id != a[j].id;
      }
    }
    PermutationNoDuplicates(b, a);
    forall i, j | 0 <= i < j < |b| ensures b[i].id != b[j].id {
      assert b[i] in a && b[j] in a && b[i] != b[j];
    }
  }

  lemma WellFormedPermuted(plane: Plane, p: Parameters, a: seq<Interval>, b: seq<Interval>)
    requires multiset(a) == multiset(b) && WellFormed(plane, p, a)
    ensures WellFormed(plane, p, b)
  {
    hide WellFormedInterval, UniqueIds, PointTotal;
    PermutationFacts(a, b);
    PointTotalPermuted(a, b);
    UniqueIdsPermuted(a, b);
  }

  /** The clusters, and the error if there is one, do not depend on the order of the intervals. */
  lemma MiningIgnoresOrder(plane: Plane, p: Parameters, a: seq<Interval>, b: seq<Interval>, nodes: seq<Node>,
                           arcs: seq<Arc>)
    requires multiset(a) == multiset(b)
    ensures Mined(plane, p, a, nodes, arcs) == Mined(plane, p, b, nodes, arcs)
  {
    hide WellFormedInterval, PointTotal, UniqueIds, Candidates, Clustered, Fits, Canonical, Sorted, DistinctIds;
    if WellFormed(plane, p, a) {
      WellFormedPermuted(plane, p, a, b);
      var items, others := Candidates(plane, p, a), Candidates(plane, p, b);
      CandidatesPermuted(plane, p, a, b);
      CandidatesDistinct(plane, p, b);
      CanonicalOrders(items);
      assert Ordering(others, Canonical(items));
      CanonicalIs(others, Canonical(items));
    } else if WellFormed(plane, p, b) {
      WellFormedPermuted(plane, p, b, a);
    }
  }
}
