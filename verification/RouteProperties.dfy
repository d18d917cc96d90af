/** What the exact route specification means for callers. */
module RouteProperties {
  import FiniteSets
  import opened Numbers
  import opened RoadGraph
  import opened Routing
  import Search = RouteSearch

  lemma BestJourneyUnique(q: Query, v: seq<nat>, w: seq<nat>)
    requires q.Valid() && BestJourney(q, v) && BestJourney(q, w)
    ensures v == w
  {
    RankTotal(JourneyRank(q, v), JourneyRank(q, w));
  }

  /** A query has one answer. */
  lemma RouteSpecFunctional(q: Query, a: RouteOutcome, b: RouteOutcome)
    requires q.Valid() && RouteSpec(q, a) && RouteSpec(q, b)
    ensures a == b
  {
    hide Blocked;
    hide BestJourney;
    if a != b {
      var v :| Answers(q, v, a);
      var w :| Answers(q, w, b);
      BestJourneyUnique(q, v, w);
    }
  }

  /** A journey that has arrived one arc earlier ranks lower. */
  lemma ShorterIsBetter(q: Query, w: seq<nat>)
    requires q.Valid() && Journey(q, w) && |w| >= 3 && Last(w[..|w| - 1]) == q.current
    ensures Journey(q, w[..|w| - 1]) && RankLess(JourneyRank(q, w[..|w| - 1]), JourneyRank(q, w))
  {
    hide Joined, RouteSpec;
    WalkPrefix(q, w);
    WalkPrefix(q, w[..|w| - 1]);
  }

  /** The reported path drops the final arc only for one lap of a single self-loop arc. */
  lemma ReportedIsJourney(q: Query, w: seq<nat>)
    requires q.Valid() && BestJourney(q, w)
    ensures Reported(w[..|w| - 1], q.current) == w || (w == [q.current, q.current] && q.previous == q.current)
  {
    hide Blocked, Joined, Length, RankLess;
    JourneySplit(q, w);
    var p := w[..|w| - 1];
    if Last(p) == q.current && |p| >= 2 {
      ShorterIsBetter(q, w);
      RankTotal(JourneyRank(q, w), JourneyRank(q, p));
      assert false;
    }
  }

  /** A found route is the best of all legal journeys and fits the distance budget. */
  lemma FoundIsBestJourney(q: Query, out: RouteOutcome) returns (w: seq<nat>)
    requires q.Valid() && RouteSpec(q, out) && out.Found? && !SameArcForward(q)
    ensures BestJourney(q, w) && out.distance == JourneyDistance(q, w) <= q.maxDistance
    ensures out.path == w || (w == [q.current, q.current] && out.path == [q.current])
    ensures out.turns == |out.path| - 1
  {
    hide Blocked;
    hide BestJourney;
    w :| Answers(q, w, out);
    ReportedIsJourney(q, w);
  }

  /** With room for every arc, the search finds a route exactly when some journey fits the budget. */
  lemma FoundIffJourneyFits(q: Query, out: RouteOutcome)
    requires q.Valid() && RouteSpec(q, out) && !SameArcForward(q)
    requires |q.graph.arcs| <= q.maxStates
    ensures out.Found? <==> exists w :: Journey(q, w) && JourneyDistance(q, w) <= q.maxDistance
  {
    hide Blocked;
    StatesBounded(q);
    if out.Found? {
      var w := FoundIsBestJourney(q, out);
    }
    forall w | Journey(q, w) && JourneyDistance(q, w) <= q.maxDistance ensures out.Found? {
      JourneyFound(q, out, w);
    }
  }

  lemma JourneyFound(q: Query, out: RouteOutcome, w: seq<nat>)
    requires q.Valid() && RouteSpec(q, out) && !SameArcForward(q)
    requires |ExploredStates(q)| <= q.maxStates
    requires Journey(q, w) && JourneyDistance(q, w) <= q.maxDistance
    ensures out.Found?
  {
    hide Blocked;
    JourneySplit(q, w);
    var p := w[..|w| - 1];
    LengthAtLeastInitial(q, p);
    assert Within(q, p);
    var v :| Answers(q, v, out);
    assert RankAtMost(JourneyRank(q, v), JourneyRank(q, w));
  }

  /** The state budget can refuse a query only when the graph has more arcs than the budget. */
  lemma StatesBounded(q: Query)
    requires q.Valid()
    ensures |ExploredStates(q)| <= |q.graph.arcs|
  {
    FiniteSets.SubsetSize(ExploredStates(q), Search.Below(|q.graph.arcs|));
  }

  /** A turn or connectivity rejection rules out every journey within the distance budget. */
  lemma RejectionMeansNoJourney(q: Query, out: RouteOutcome, w: seq<nat>)
    requires q.Valid() && RouteSpec(q, out) && out.Rejected? && out.reason != GraphSearchBudget
    requires Journey(q, w)
    ensures JourneyDistance(q, w) > q.maxDistance
  {
    hide Blocked;
    JourneySplit(q, w);
    assert !Completable(q);
    assert !Within(q, w[..|w| - 1]);
  }

  // ----- every query has an answer -----

  /** A positive lower bound of all arc lengths. */
  lemma ShortestArc(arcs: seq<Arc>) returns (least: real)
    requires forall a :: 0 <= a < |arcs| ==> arcs[a].length > 0.0
    ensures least > 0.0 && forall a :: 0 <= a < |arcs| ==> arcs[a].length >= least
  {
    least := 1.0;
    for n := 0 to |arcs|
      invariant least > 0.0 && forall a :: 0 <= a < n ==> arcs[a].length >= least
    {
      if arcs[n].length < least {
        least := arcs[n].length;
      }
    }
  }

  lemma {:induction false} LengthAtLeast(q: Query, p: seq<nat>, least: real)
    requires q.Valid() && p != [] && InRange(q.graph, p)
    requires forall a :: 0 <= a < |q.graph.arcs| ==> q.graph.arcs[a].length >= least
    ensures Length(q, p) >= (|p| - 1) as real * least
  {
    if |p| > 1 {
      LengthAtLeast(q, p[..|p| - 1], least);
      assert (|p| - 1) as real * least == (|p| - 2) as real * least + least;
    }
  }

  /** Paths of at most `n` arcs. */
  ghost function PathsUpTo(arcs: nat, n: nat): set<seq<nat>> {
    if n == 0 then {[]}
    else {[]} + set p, a | p in PathsUpTo(arcs, n - 1) && a in Search.Below(arcs) :: p + [a]
  }

  lemma {:induction false} PathListed(arcs: nat, n: nat, p: seq<nat>)
    requires |p| <= n && forall i :: 0 <= i < |p| ==> p[i] < arcs
    ensures p in PathsUpTo(arcs, n)
  {
    if p != [] {
      PathListed(arcs, n - 1, p[..|p| - 1]);
      assert p == p[..|p| - 1] + [p[|p| - 1]];
    }
  }

  lemma {:induction false} LeastRanked(q: Query, paths: set<seq<nat>>) returns (best: seq<nat>)
    requires q.Valid() && paths != {} && forall p :: p in paths ==> Walk(q, p)
    ensures best in paths && Walk(q, best)
    ensures forall p :: p in paths ==> Walk(q, p) && RankAtMost(Rank(q, best), Rank(q, p))
    decreases paths
  {
    hide Joined, RankAtMost;
    var p :| p in paths;
    if paths == {p} {
      best := p;
      RankSame(q, p);
    } else {
      var other := LeastRanked(q, paths - {p});
      best := RankSmaller(q, p, other);
      forall r | r in paths ensures RankAtMost(Rank(q, best), Rank(q, r)) {
        if r != p {
          RankTransitive(Rank(q, best), Rank(q, other), Rank(q, r));
        }
      }
    }
  }

  lemma RankSame(q: Query, p: seq<nat>)
    requires q.Valid() && Walk(q, p)
    ensures RankAtMost(Rank(q, p), Rank(q, p))
  {
  }

  lemma RankSmaller(q: Query, p: seq<nat>, r: seq<nat>) returns (best: seq<nat>)
    requires q.Valid() && Walk(q, p) && Walk(q, r)
    ensures best in {p, r} && RankAtMost(Rank(q, best), Rank(q, p)) && RankAtMost(Rank(q, best), Rank(q, r))
  {
    hide Joined, RankLess;
    RankTotal(Rank(q, p), Rank(q, r));
    best := if RankLess(Rank(q, p), Rank(q, r)) then p else r;
  }

  /** Arcs have positive lengths, so only finitely many walks fit the budget, and one approach ranks lowest. */
  lemma BestApproachExists(q: Query) returns (p: seq<nat>)
    requires q.Valid() && Completable(q)
    ensures Approach(q, p) && forall s :: Walk(q, s) && Approach(q, s) ==> RankAtMost(Rank(q, p), Rank(q, s))
  {
    hide Joined, RankAtMost;
    var least := ShortestArc(q.graph.arcs);
    var some :| Within(q, some) && Approach(q, some);
    ArcsBound(q, some, least);
    var bound := (q.maxDistance / least).Floor + 1;
    forall s | Within(q, s) ensures s in PathsUpTo(|q.graph.arcs|, bound) {
      ArcsBound(q, s, least);
      PathListed(|q.graph.arcs|, bound, s);
    }
    var paths := set s | s in PathsUpTo(|q.graph.arcs|, bound) && Within(q, s) && Approach(q, s);
    assert some in paths;
    p := LeastRanked(q, paths);
    forall s | Walk(q, s) && Approach(q, s) ensures RankAtMost(Rank(q, p), Rank(q, s)) {
      if Within(q, s) {
        assert s in paths;
      } else {
        LongerRanks(q, p, s);
      }
    }
  }

  lemma ArcsBound(q: Query, s: seq<nat>, least: real)
    requires q.Valid() && Within(q, s)
    requires least > 0.0 && forall a :: 0 <= a < |q.graph.arcs| ==> q.graph.arcs[a].length >= least
    ensures s != [] && InRange(q.graph, s) && |s| - 1 <= (q.maxDistance / least).Floor
  {
    LengthAtLeast(q, s, least);
    BoundedCount(|s| - 1, least, q.maxDistance);
  }

  lemma LongerRanks(q: Query, p: seq<nat>, s: seq<nat>)
    requires q.Valid() && Walk(q, p) && Walk(q, s) && Length(q, p) < Length(q, s)
    ensures RankAtMost(Rank(q, p), Rank(q, s))
  {
  }

  lemma BoundedCount(n: nat, least: real, bound: real)
    requires least > 0.0 && n as real * least <= bound
    ensures n <= (bound / least).Floor
  {
    MulDiv(bound, least);
    MulMonotone(n as real, bound / least, least);
  }

  /** Every valid query has an answer. */
  lemma RouteExists(q: Query) returns (out: RouteOutcome)
    requires q.Valid()
    ensures RouteSpec(q, out)
  {
    hide Joined, RankAtMost, ExploredStates, BlockedAtTarget, BestJourney;
    if SameArcForward(q) {
      out := Found(q.currentOffset - q.previousOffset, 0, 0, [q.previous]);
    } else if q.InitialDistance() > q.maxDistance || |ExploredStates(q)| > q.maxStates {
      out := Rejected(GraphSearchBudget);
    } else if Completable(q) {
      var p := BestApproachExists(q);
      BestApproachIsBestJourney(q, p);
      out := AnswerOf(q, p + [q.current]);
      assert Answers(q, p + [q.current], out);
    } else {
      out := Rejected(if BlockedAtTarget(q, ForbiddenTurn) then ForbiddenTurn
                      else if BlockedAtTarget(q, UnknownRestriction) then UnknownRestriction
                      else NoDirectedPath);
    }
  }

  lemma AnswerOf(q: Query, w: seq<nat>) returns (out: RouteOutcome)
    requires q.Valid() && BestJourney(q, w)
    ensures Answers(q, w, out)
  {
    if JourneyDistance(q, w) > q.maxDistance {
      out := Rejected(GraphSearchBudget);
    } else {
      var path := Reported(w[..|w| - 1], q.current);
      out := Found(JourneyDistance(q, w), |path| - 1, |UTurns(q.graph, path, |path|)|, path);
    }
  }
}
