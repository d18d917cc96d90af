/** Shortest legal walk between two matched positions (`route` in road_matching.cpp). */
module Routing {
  import opened Lexicographic
  import opened RoadGraph
  import opened Wrappers

  datatype Query = Query(graph: Graph, previous: nat, previousOffset: real, current: nat, currentOffset: real,
                         maxDistance: real, maxStates: nat)
  {
    predicate Valid() {
      && ValidGraph(graph)
      && previous < |graph.arcs| && 0.0 <= previousOffset <= graph.arcs[previous].length
      && current < |graph.arcs| && 0.0 <= currentOffset <= graph.arcs[current].length
    }

    function InitialDistance(): real
      requires Valid()
    {
      graph.arcs[previous].length - previousOffset
    }
  }

  datatype RouteOutcome =
    | Found(distance: real, turns: nat, uTurns: nat, path: seq<nat>)
    | Rejected(reason: Rejection)

  // ----- rankings -----

  datatype Ranking = Ranking(distance: real, turns: nat, path: seq<nat>)

  predicate RankLess(a: Ranking, b: Ranking) {
    a.distance < b.distance ||
    (a.distance == b.distance && (a.turns < b.turns || (a.turns == b.turns && PathLess(a.path, b.path))))
  }

  predicate RankAtMost(a: Ranking, b: Ranking) { a == b || RankLess(a, b) }

  lemma RankTotal(a: Ranking, b: Ranking)
    ensures RankLess(a, b) || RankLess(b, a) || a == b
    ensures !(RankLess(a, b) && RankLess(b, a))
    ensures !RankLess(a, a)
  {
    LessTotal(NatLess, a.path, b.path);
    LessIrreflexive(NatLess, a.path);
    if PathLess(a.path, b.path) && PathLess(b.path, a.path) {
      LessTransitive(NatLess, a.path, b.path, a.path);
    }
  }

  lemma RankTransitive(a: Ranking, b: Ranking, c: Ranking)
    requires RankAtMost(a, b) && RankAtMost(b, c)
    ensures RankAtMost(a, c)
    ensures RankLess(a, b) || RankLess(b, c) ==> RankLess(a, c)
  {
    if PathLess(a.path, b.path) && PathLess(b.path, c.path) {
      LessTransitive(NatLess, a.path, b.path, c.path);
    }
  }

  // ----- legal walks: the independent meaning of a route -----

  /** Arc `b` can follow arc `a`: they share a node and no rule restricts the turn. */
  ghost predicate Joined(q: Query, a: nat, b: nat)
    requires q.Valid() && a < |q.graph.arcs| && b < |q.graph.arcs|
  {
    q.graph.arcs[a].to == q.graph.arcs[b].from &&
    Blocked(q.graph, q.graph.arcs[a].id, q.graph.arcs[b].id) == None
  }

  /** A legal walk that starts on the previous arc. */
  ghost predicate Walk(q: Query, p: seq<nat>)
    requires q.Valid()
  {
    && p != [] && p[0] == q.previous && InRange(q.graph, p)
    && forall i :: 0 <= i < |p| - 1 ==> Joined(q, p[i], p[i + 1])
  }

  function Last(p: seq<nat>): nat
    requires p != []
  {
    p[|p| - 1]
  }

  /** Distance from the previous position to the end of the walk's last arc. */
  ghost function Length(q: Query, p: seq<nat>): real
    requires q.Valid() && p != [] && InRange(q.graph, p)
  {
    if |p| == 1 then q.InitialDistance()
    else Length(q, p[..|p| - 1]) + q.graph.arcs[Last(p)].length
  }

  ghost function Rank(q: Query, p: seq<nat>): Ranking
    requires q.Valid() && p != [] && InRange(q.graph, p)
  {
    Ranking(Length(q, p), |p| - 1, p)
  }

  ghost predicate Within(q: Query, p: seq<nat>)
    requires q.Valid()
  {
    Walk(q, p) && Length(q, p) <= q.maxDistance
  }

  /** A walk from which the current arc may legally be entered. */
  ghost predicate Approach(q: Query, p: seq<nat>)
    requires q.Valid()
  {
    Walk(q, p) && Joined(q, Last(p), q.current)
  }

  /** A legal walk from the previous arc to the current arc. */
  ghost predicate Journey(q: Query, w: seq<nat>)
    requires q.Valid()
  {
    Walk(q, w) && |w| >= 2 && Last(w) == q.current
  }

  /** Distance from the previous position to the current position along a journey. */
  ghost function JourneyDistance(q: Query, w: seq<nat>): real
    requires q.Valid() && Journey(q, w)
  {
    Length(q, w[..|w| - 1]) + q.currentOffset
  }

  ghost function JourneyRank(q: Query, w: seq<nat>): Ranking
    requires q.Valid() && Journey(q, w)
  {
    Ranking(JourneyDistance(q, w), |w| - 1, w)
  }

  /** `w` ranks lowest among the journeys of any length. */
  ghost predicate BestJourney(q: Query, w: seq<nat>)
    requires q.Valid()
  {
    Journey(q, w) && forall v :: Journey(q, v) ==> RankAtMost(JourneyRank(q, w), JourneyRank(q, v))
  }

  /** The arc path that is reported: the current arc is not listed again after itself. */
  function Reported(approach: seq<nat>, current: nat): seq<nat>
    requires approach != []
  {
    if Last(approach) == current then approach else approach + [current]
  }

  /** Some walk onto arc `a` is ranked no higher than every way of completing the search. */
  ghost predicate Explored(q: Query, a: nat)
    requires q.Valid()
  {
    exists p :: Within(q, p) && Last(p) == a &&
                forall s :: Within(q, s) && Approach(q, s) ==> RankAtMost(Rank(q, p), Rank(q, s))
  }

  /** The search states that have to be settled before the search can stop. */
  ghost function ExploredStates(q: Query): set<nat>
    requires q.Valid()
  {
    set a: nat | a < |q.graph.arcs| && Explored(q, a)
  }

  /** Some walk within the distance budget reaches the current arc's start but is blocked there. */
  ghost predicate BlockedAtTarget(q: Query, reason: Rejection)
    requires q.Valid()
  {
    exists p :: Within(q, p) && q.graph.arcs[Last(p)].to == q.graph.arcs[q.current].from &&
                Blocked(q.graph, q.graph.arcs[Last(p)].id, q.graph.arcs[q.current].id) == Some(reason)
  }

  /** What a completed search answers when `w` is the best journey. */
  ghost predicate Answers(q: Query, w: seq<nat>, out: RouteOutcome)
    requires q.Valid()
  {
    BestJourney(q, w) &&
    out == if JourneyDistance(q, w) > q.maxDistance then Rejected(GraphSearchBudget)
           else
             var path := Reported(w[..|w| - 1], q.current);
             Found(JourneyDistance(q, w), |path| - 1, |UTurns(q.graph, path, |path|)|, path)
  }

  ghost predicate SameArcForward(q: Query) {
    q.previous == q.current && q.currentOffset >= q.previousOffset
  }

  ghost predicate Completable(q: Query)
    requires q.Valid()
  {
    exists p :: Within(q, p) && Approach(q, p)
  }

  /** The exact result of a route query, stated without reference to the search. */
  ghost predicate RouteSpec(q: Query, out: RouteOutcome)
    requires q.Valid()
  {
    if SameArcForward(q) then
      out == Found(q.currentOffset - q.previousOffset, 0, 0, [q.previous])
    else if q.InitialDistance() > q.maxDistance || |ExploredStates(q)| > q.maxStates then
      out == Rejected(GraphSearchBudget)
    else if Completable(q) then
      exists w :: Answers(q, w, out)
    else
      out == Rejected(if BlockedAtTarget(q, ForbiddenTurn) then ForbiddenTurn
                      else if BlockedAtTarget(q, UnknownRestriction) then UnknownRestriction
                      else NoDirectedPath)
  }

  // ----- walks grow and keep their ranking -----

  lemma WalkPrefix(q: Query, p: seq<nat>)
    requires q.Valid() && Walk(q, p) && |p| >= 2
    ensures Walk(q, p[..|p| - 1]) && Joined(q, Last(p[..|p| - 1]), Last(p))
    ensures p == p[..|p| - 1] + [Last(p)]
    ensures Length(q, p[..|p| - 1]) < Length(q, p)
  {
    var r := p[..|p| - 1];
    assert forall i :: 0 <= i < |r| ==> r[i] == p[i];
    assert Joined(q, p[|p| - 2], p[|p| - 2 + 1]);
  }

  lemma WalkSnoc(q: Query, p: seq<nat>, n: nat)
    requires q.Valid() && Walk(q, p) && n < |q.graph.arcs| && Joined(q, Last(p), n)
    ensures Walk(q, p + [n]) && Last(p + [n]) == n
    ensures Length(q, p + [n]) == Length(q, p) + q.graph.arcs[n].length
  {
    assert (p + [n])[..|p|] == p;
  }

  /** Appending one arc to two walks keeps their order. */
  lemma SnocKeepsRank(q: Query, p: seq<nat>, r: seq<nat>, n: nat)
    requires q.Valid() && Walk(q, p) && Walk(q, r) && n < |q.graph.arcs|
    requires Joined(q, Last(p), n) && Joined(q, Last(r), n)
    ensures RankAtMost(Rank(q, p), Rank(q, r)) ==>
              RankAtMost(Ranking(Length(q, p) + q.graph.arcs[n].length, |p|, p + [n]), Rank(q, r + [n]))
  {
    WalkSnoc(q, r, n);
    if |p| == |r| {
      LessSnoc(NatLess, p, n, r, n);
    }
  }

  lemma {:induction false} LengthAtLeastInitial(q: Query, p: seq<nat>)
    requires q.Valid() && Walk(q, p)
    ensures q.InitialDistance() <= Length(q, p)
    ensures |p| > 1 ==> q.InitialDistance() < Length(q, p)
  {
    if |p| > 1 {
      WalkPrefix(q, p);
      LengthAtLeastInitial(q, p[..|p| - 1]);
    }
  }

  lemma JourneySplit(q: Query, w: seq<nat>)
    requires q.Valid() && Journey(q, w)
    ensures Approach(q, w[..|w| - 1]) && w == w[..|w| - 1] + [q.current]
  {
    WalkPrefix(q, w);
  }

  lemma ApproachCompletes(q: Query, p: seq<nat>)
    requires q.Valid() && Approach(q, p)
    ensures Journey(q, p + [q.current]) && (p + [q.current])[..|p|] == p
    ensures JourneyRank(q, p + [q.current]) == Ranking(Length(q, p) + q.currentOffset, |p|, p + [q.current])
  {
    WalkSnoc(q, p, q.current);
    assert (p + [q.current])[..|p|] == p;
  }

  /** The lowest-ranked approach, completed, is the lowest-ranked journey. */
  lemma BestApproachIsBestJourney(q: Query, p: seq<nat>)
    requires q.Valid() && Approach(q, p)
    requires forall s :: Walk(q, s) && Approach(q, s) ==> RankAtMost(Rank(q, p), Rank(q, s))
    ensures BestJourney(q, p + [q.current])
  {
    ApproachCompletes(q, p);
    forall v | Journey(q, v) ensures RankAtMost(JourneyRank(q, p + [q.current]), JourneyRank(q, v)) {
      JourneySplit(q, v);
      var s := v[..|v| - 1];
      ApproachCompletes(q, s);
      assert RankAtMost(Rank(q, p), Rank(q, s));
      if |p| == |s| {
        LessSnoc(NatLess, p, q.current, s, q.current);
      }
    }
  }
}
