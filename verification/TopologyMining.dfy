/** Screening and clustering of off-map intervals (`mine_repeated_topology_disagreements`). */
module TopologyMining {
  import opened Wrappers
  import opened Lexicographic
  import opened Sorting
  import opened Clustering
  import opened Resampling
  import opened CorridorCompatibility
  import opened TopologyInputs

  const SIZE_MAX: nat := 0xffff_ffff_ffff_ffff

  datatype MiningError = InvalidParameters | InvalidInputs | ComparisonOverflow | ComparisonBudget | ClusterBudget

  // ----- screening -----

  datatype Verdict = NotOffMap | Unobservable | Undirected | Stationary | LowQuality | Short | Selected

  function Span(plane: Plane, points: seq<Point>): real {
    if points == [] then 0.0 else Distance(plane.hypot, points[0], points[|points| - 1])
  }

  /** The first reason to reject an interval. */
  ghost function Screened(plane: Plane, p: Parameters, v: Interval): Verdict {
    if !v.offMap then NotOffMap
    else if !v.observable then Unobservable
    else if !v.directionConfident then Undirected
    else if v.stationary then Stationary
    else if v.quality < p.minimumQuality then LowQuality
    else if Length(plane, v.points) < p.minimumLength then Short
    else if !(Span(plane, v.points) > p.graphTolerance) then Undirected
    else Selected
  }

  datatype Item = Item(interval: Interval, shape: seq<Point>)

  ghost predicate IsShape(plane: Plane, count: nat, points: seq<Point>, r: seq<Point>) {
    |points| >= 2 && count >= 2 && Resampled(plane.hypot, points, count, r)
  }

  ghost function ShapeOf(plane: Plane, count: nat, points: seq<Point>): seq<Point> {
    if exists r :: IsShape(plane, count, points, r) then
      var r :| IsShape(plane, count, points, r); r
    else []
  }

  lemma ShapeUnique(plane: Plane, count: nat, points: seq<Point>, r: seq<Point>)
    requires plane.Valid() && IsShape(plane, count, points, r)
    ensures r == ShapeOf(plane, count, points)
  {
    hide AtArcLength, Target, IsNorm;
    var s := ShapeOf(plane, count, points);
    forall i | 0 < i < count ensures r[i] == s[i] {
      var target := Target(ArcLength(plane.hypot, points, |points| - 1), i, count);
      AtArcLengthUnique(plane.hypot, points, target, r[i], s[i]);
    }
  }

  ghost function ItemOf(plane: Plane, p: Parameters, v: Interval): Item {
    Item(v, ShapeOf(plane, p.resampleCount, v.points))
  }

  /** The selected intervals with their resampled shapes, in input order. */
  ghost function Candidates(plane: Plane, p: Parameters, s: seq<Interval>): seq<Item> {
    if s == [] then []
    else
      var v := s[|s| - 1];
      Candidates(plane, p, s[..|s| - 1]) + if Screened(plane, p, v).Selected? then [ItemOf(plane, p, v)] else []
  }

  ghost function CountOf(plane: Plane, p: Parameters, s: seq<Interval>, verdict: Verdict): nat {
    if s == [] then 0
    else CountOf(plane, p, s[..|s| - 1], verdict) + if Screened(plane, p, s[|s| - 1]) == verdict then 1 else 0
  }

  method Judge(plane: Plane, p: Parameters, v: Interval) returns (verdict: Verdict)
    ensures verdict == Screened(plane, p, v)
  {
    if !v.offMap {
      return NotOffMap;
    }
    if !v.observable {
      return Unobservable;
    }
    if !v.directionConfident {
      return Undirected;
    }
    if v.stationary {
      return Stationary;
    }
    if v.quality < p.minimumQuality {
      return LowQuality;
    }
    var length := PolylineLength(plane, v.points);
    if length < p.minimumLength {
      return Short;
    }
    if !(Span(plane, v.points) > p.graphTolerance) {
      return Undirected;
    }
    return Selected;
  }

  lemma ScreenStep(plane: Plane, p: Parameters, s: seq<Interval>, n: nat)
    requires n < |s|
    ensures Candidates(plane, p, s[..n + 1]) == Candidates(plane, p, s[..n]) +
      (if Screened(plane, p, s[n]).Selected? then [ItemOf(plane, p, s[n])] else [])
    ensures forall verdict :: (CountOf(plane, p, s[..n + 1], verdict) ==
      CountOf(plane, p, s[..n], verdict) + if Screened(plane, p, s[n]) == verdict then 1 else 0)
  {
    assert s[..n + 1][..n] == s[..n];
  }

  lemma ScreenStart(plane: Plane, p: Parameters, s: seq<Interval>)
    ensures Candidates(plane, p, s[..0]) == []
    ensures forall verdict :: CountOf(plane, p, s[..0], verdict) == 0
  {
  }

  /** Every interval is selected or counted under exactly one reason. */
  method Screen(plane: Plane, p: Parameters, s: seq<Interval>)
    returns (rejected: map<Verdict, nat>, chosen: seq<Item>)
    requires plane.Valid() && p.Valid() && WellFormed(plane, p, s)
    ensures chosen == Candidates(plane, p, s)
    ensures rejected.Keys == {NotOffMap, Unobservable, Undirected, Stationary, LowQuality, Short}
    ensures forall verdict :: verdict in rejected ==> rejected[verdict] == CountOf(plane, p, s, verdict)
    ensures |s| == |chosen| + rejected[NotOffMap] + rejected[Unobservable] + rejected[Undirected]
      + rejected[Stationary] + rejected[LowQuality] + rejected[Short]
  {
    hide CountOf, Candidates, Screened, IsNorm, ShapeOf, Length;
    rejected := map[NotOffMap := 0, Unobservable := 0, Undirected := 0, Stationary := 0, LowQuality := 0, Short := 0];
    chosen := [];
    ScreenStart(plane, p, s);
    for n := 0 to |s|
      invariant chosen == Candidates(plane, p, s[..n])
      invariant rejected.Keys == {NotOffMap, Unobservable, Undirected, Stationary, LowQuality, Short}
      invariant forall verdict :: verdict in rejected ==> rejected[verdict] == CountOf(plane, p, s[..n], verdict)
    {
      ScreenStep(plane, p, s, n);
      var verdict := Judge(plane, p, s[n]);
      if verdict == Selected {
        var shape := ResampledShape(plane, p, s[n]);
        chosen := chosen + [Item(s[n], shape)];
      } else {
        rejected := rejected[verdict := rejected[verdict] + 1];
      }
    }
    assert s[..|s|] == s;
    EveryIntervalCounted(plane, p, s);
  }

  lemma {:induction false} EveryIntervalCounted(plane: Plane, p: Parameters, s: seq<Interval>)
    ensures |s| == |Candidates(plane, p, s)| + CountOf(plane, p, s, NotOffMap) + CountOf(plane, p, s, Unobservable)
      + CountOf(plane, p, s, Undirected) + CountOf(plane, p, s, Stationary) + CountOf(plane, p, s, LowQuality)
      + CountOf(plane, p, s, Short)
  {
    hide Screened, ItemOf;
    if s != [] {
      EveryIntervalCounted(plane, p, s[..|s| - 1]);
    }
  }

  method ResampledShape(plane: Plane, p: Parameters, v: Interval) returns (shape: seq<Point>)
    requires plane.Valid() && p.Valid() && WellFormedInterval(plane, p, v)
    ensures shape == ShapeOf(plane, p.resampleCount, v.points)
  {
    hide IsNorm, Resampled, ShapeOf;
    var r := Resample(plane.hypot, v.points, p.resampleCount);
    shape := r.value;
    ShapeUnique(plane, p.resampleCount, v.points, shape);
  }

  // ----- canonical order -----

  predicate ById(x: Item, y: Item) { StringLess(x.interval.id, y.interval.id) }

  lemma ByIdWeak()
    ensures StrictWeak(ById)
  {
    StringLessTotal();
  }

  ghost predicate DistinctIds(items: seq<Item>) {
    forall i, j :: 0 <= i < j < |items| ==> items[i].interval.id != items[j].interval.id
  }

  lemma {:induction false} CandidateSource(plane: Plane, p: Parameters, s: seq<Interval>, k: nat)
    requires k < |Candidates(plane, p, s)|
    ensures Candidates(plane, p, s)[k].interval in s
  {
    if k < |Candidates(plane, p, s[..|s| - 1])| {
      CandidateSource(plane, p, s[..|s| - 1], k);
    }
  }

  lemma {:induction false} CandidatesDistinct(plane: Plane, p: Parameters, s: seq<Interval>)
    requires UniqueIds(s)
    ensures DistinctIds(Candidates(plane, p, s))
  {
    hide Screened, ItemOf;
    if s != [] {
      var front := s[..|s| - 1];
      CandidatesDistinct(plane, p, front);
      forall k | 0 <= k < |Candidates(plane, p, front)|
        ensures Candidates(plane, p, front)[k].interval.id != s[|s| - 1].id
      {
        CandidateSource(plane, p, front, k);
      }
      assert ItemOf(plane, p, s[|s| - 1]).interval == s[|s| - 1] by { ItemInterval(plane, p, s[|s| - 1]); }
    }
  }

  lemma ItemInterval(plane: Plane, p: Parameters, v: Interval)
    ensures ItemOf(plane, p, v).interval == v
  {
  }

  ghost predicate Ordering(items: seq<Item>, r: seq<Item>) {
    Sorted(ById, r) && multiset(r) == multiset(items)
  }

  /** The items in order of interval id. */
  ghost function Canonical(items: seq<Item>): seq<Item> {
    if exists r :: Ordering(items, r) then
      var r :| Ordering(items, r); r
    else []
  }

  lemma DistinctComparable(items: seq<Item>)
    requires DistinctIds(items)
    ensures Comparable(ById, items)
  {
    StringLessTotal();
  }

  lemma CanonicalIs(items: seq<Item>, r: seq<Item>)
    requires Ordering(items, r) && DistinctIds(items)
    ensures r == Canonical(items)
  {
    hide Sorted, DistinctIds, Comparable;
    DistinctComparable(items);
    ComparablePermuted(items, r);
    SortedUnique(ById, r, Canonical(items));
  }

  lemma ComparablePermuted(items: seq<Item>, r: seq<Item>)
    requires Comparable(ById, items) && multiset(r) == multiset(items)
    ensures Comparable(ById, r)
  {
    PermutationFacts(r, items);
  }

  // ----- clustering -----

  ghost function Pairs(n: nat): nat { n * (n - 1) / 2 }

  /** Each further item makes a pair with every one before it. */
  lemma PairsMeaning(n: nat)
    ensures Pairs(0) == 0 && Pairs(n + 1) == Pairs(n) + n
  {
    assert (n + 1) * n == n * (n - 1) + 2 * n;
  }

  lemma QuotientTest(m: nat, count: nat, smaller: nat)
    requires smaller > 0
    ensures count > m / smaller <==> count * smaller > m
  {
    var q, rest := m / smaller, m % smaller;
    assert m == q * smaller + rest;
    if count > q {
      TimesMonotone(q + 1, count, smaller);
      TimesNext(q, smaller);
    } else {
      TimesMonotone(count, q, smaller);
    }
  }

  lemma TimesMonotone(a: int, b: int, n: nat)
    requires a <= b
    ensures a * n <= b * n
  {
    assert (b - a) * n >= 0;
  }

  lemma TimesNext(a: int, n: nat)
    ensures (a + 1) * n == a * n + n
  {
  }

  /** The number of pairs, refused when the product would wrap or exceeds the budget. */
  method PairwiseCount(count: nat, maximum: nat) returns (r: Result<nat, MiningError>)
    ensures r == if count * (count - 1) > SIZE_MAX then Err(ComparisonOverflow)
                 else if Pairs(count) > maximum then Err(ComparisonBudget)
                 else Ok(Pairs(count))
  {
    if count < 2 {
      assert count * (count - 1) == 0;
      return Ok(0);
    }
    var smaller := count - 1;
    QuotientTest(SIZE_MAX, count, smaller);
    if count > SIZE_MAX / smaller {
      return Err(ComparisonOverflow);
    }
    var result := count * smaller / 2;
    if result > maximum {
      return Err(ComparisonBudget);
    }
    return Ok(result);
  }

  function Fits(plane: Plane, p: Parameters): (Item, Item) -> bool {
    (x: Item, y: Item) => Compatible(plane, p, x.shape, y.shape)
  }

  lemma FitsSymmetric(plane: Plane, p: Parameters)
    requires plane.Valid()
    ensures Symmetric(Fits(plane, p))
  {
    hide Compatible, IsNorm;
    forall x, y ensures Fits(plane, p)(x, y) == Fits(plane, p)(y, x) {
      CompatibleSymmetric(plane, p, x.shape, y.shape);
    }
  }

  /** What mining returns, as a function of the inputs. */
  ghost function Mined(plane: Plane, p: Parameters, s: seq<Interval>, nodes: seq<Node>, arcs: seq<Arc>)
    : Result<seq<seq<Item>>, MiningError>
  {
    if !p.Valid() then Err(InvalidParameters)
    else if !WellFormed(plane, p, s) || !WellFormedGraph(plane, p, nodes, arcs) then Err(InvalidInputs)
    else Clustered(Fits(plane, p), p, Canonical(Candidates(plane, p, s)))
  }

  ghost function Clustered(fits: (Item, Item) -> bool, p: Parameters, items: seq<Item>)
    : Result<seq<seq<Item>>, MiningError>
  {
    if |items| * (|items| - 1) > SIZE_MAX then Err(ComparisonOverflow)
    else if Pairs(|items|) > p.maximumComparisons then Err(ComparisonBudget)
    else if |FirstFit(fits, items)| > p.maximumClusters then Err(ClusterBudget)
    else Ok(FirstFit(fits, items))
  }

  /** Mine clusters with no more compatibility checks than the budget allows. */
  method Mine(plane: Plane, p: Parameters, s: seq<Interval>, nodes: seq<Node>, arcs: seq<Arc>)
    returns (r: Result<seq<seq<Item>>, MiningError>, ghost checks: nat)
    requires plane.Valid()
    ensures r == Mined(plane, p, s, nodes, arcs)
    ensures checks <= p.maximumComparisons
  {
    hide WellFormed, WellFormedGraph, Candidates, Canonical, FirstFit, Pairs, IsNorm, Fits;
    checks := 0;
    if !p.Valid() {
      return Err(InvalidParameters), 0;
    }
    var ok := Validate(plane, p, s, nodes, arcs);
    if !ok {
      return Err(InvalidInputs), 0;
    }
    var rejected, chosen := Screen(plane, p, s);
    var items := SortById(plane, p, s, chosen);
    var pairs := PairwiseCount(|items|, p.maximumComparisons);
    if pairs.Err? {
      return Err(pairs.error), 0;
    }
    var clusters;
    clusters, checks := BuildClusters(Fits(plane, p), items, p.maximumClusters);
    PairsBound(|items|, checks);
    if clusters.None? {
      return Err(ClusterBudget), checks;
    }
    return Ok(clusters.value), checks;
  }

  lemma PairsBound(n: nat, checks: nat)
    requires 2 * checks <= n * (n - 1)
    ensures checks <= Pairs(n)
  {
  }

  method SortById(plane: Plane, p: Parameters, s: seq<Interval>, chosen: seq<Item>) returns (items: seq<Item>)
    requires WellFormed(plane, p, s) && chosen == Candidates(plane, p, s)
    ensures items == Canonical(Candidates(plane, p, s)) && |items| == |chosen|
  {
    hide Sorted, Canonical, Candidates, DistinctIds;
    ByIdWeak();
    items := Sort(ById, chosen);
    CandidatesDistinct(plane, p, s);
    CanonicalIs(chosen, items);
  }
}
