/** Route queries in plain terms: arcs, nodes, lengths and rules, without the vocabulary of the search. */
module RouteMeaning {
  import opened Lexicographic
  import opened Wrappers
  import opened RoadGraph
  import opened Routing
  import opened RouteProperties

  /** Lengths of the first `n` arcs of a path together. */
  function Travelled(arcs: seq<Arc>, w: seq<nat>, n: nat): real
    requires n <= |w| && forall i :: 0 <= i < n ==> w[i] < |arcs|
  {
    if n == 0 then 0.0 else Travelled(arcs, w, n - 1) + arcs[w[n - 1]].length
  }

  /** Some rule in state `state` names the turn from arc `a` to arc `b`. */
  ghost predicate Ruled(g: Graph, a: nat, b: nat, state: RuleState)
    requires a < |g.arcs| && b < |g.arcs|
  {
    exists rule :: rule in g.rules && rule.from == g.arcs[a].id && rule.to == g.arcs[b].id && rule.state == state
  }

  ghost predicate LegalTurn(g: Graph, a: nat, b: nat)
    requires a < |g.arcs| && b < |g.arcs|
  {
    g.arcs[a].to == g.arcs[b].from && !Ruled(g, a, b, ForbiddenRule) && !Ruled(g, a, b, UnknownRule)
  }

  /** A path from the previous arc that follows nodes and breaks no rule. */
  ghost predicate LegalPath(q: Query, w: seq<nat>) {
    && w != [] && w[0] == q.previous && (forall i :: 0 <= i < |w| ==> w[i] < |q.graph.arcs|)
    && forall i, j :: 0 <= i && j == i + 1 < |w| ==> LegalTurn(q.graph, w[i], w[j])
  }

  /** A path that enters the current arc by a turn. */
  ghost predicate LegalTrip(q: Query, w: seq<nat>) {
    LegalPath(q, w) && |w| >= 2 && w[|w| - 1] == q.current
  }

  /** From the previous position to the end of the path. */
  ghost function PathDistance(q: Query, w: seq<nat>): real
    requires LegalPath(q, w)
  {
    Travelled(q.graph.arcs, w, |w|) - q.previousOffset
  }

  /** From the previous position to the current position. */
  ghost function TripDistance(q: Query, w: seq<nat>): real
    requires LegalTrip(q, w)
  {
    Travelled(q.graph.arcs, w, |w| - 1) + q.currentOffset - q.previousOffset
  }

  /** Shorter; equally long with fewer turns; or as many turns and the smaller arc index at the first difference. */
  ghost predicate Preferred(q: Query, v: seq<nat>, w: seq<nat>)
    requires LegalTrip(q, v) && LegalTrip(q, w)
  {
    TripDistance(q, v) < TripDistance(q, w) ||
    (TripDistance(q, v) == TripDistance(q, w) &&
     (|v| < |w| || (|v| == |w| && exists k :: 0 <= k < |v| && v[..k] == w[..k] && v[k] < w[k])))
  }

  /** The path enters its arc number `i` back along the same way in the other direction. */
  predicate TurnsBack(arcs: seq<Arc>, path: seq<nat>, i: int) {
    0 < i < |path| && path[i - 1] < |arcs| && path[i] < |arcs| &&
    arcs[path[i - 1]].way == arcs[path[i]].way && arcs[path[i - 1]].direction != arcs[path[i]].direction
  }

  function Reversals(arcs: seq<Arc>, path: seq<nat>): set<int> {
    set i | 0 < i < |path| && TurnsBack(arcs, path, i)
  }

  /** A path within the budget ends where the current arc begins, and a rule in this state names the turn. */
  ghost predicate StoppedAt(q: Query, p: seq<nat>, state: RuleState) {
    LegalPath(q, p) && q.current < |q.graph.arcs| && PathDistance(q, p) <= q.maxDistance &&
    q.graph.arcs[p[|p| - 1]].to == q.graph.arcs[q.current].from && Ruled(q.graph, p[|p| - 1], q.current, state)
  }

  ghost predicate StoppedBy(q: Query, state: RuleState) { exists p :: StoppedAt(q, p, state) }

  // ----- the two vocabularies agree -----

  lemma BlockedMeaning(g: Graph, a: nat, b: nat)
    requires a < |g.arcs| && b < |g.arcs|
    ensures Blocked(g, g.arcs[a].id, g.arcs[b].id) ==
              if Ruled(g, a, b, ForbiddenRule) then Some(ForbiddenTurn)
              else if Ruled(g, a, b, UnknownRule) then Some(UnknownRestriction) else None
  {
    forall k | 0 <= k < |g.rules| && Matches(g.rules[k], g.arcs[a].id, g.arcs[b].id)
      ensures Ruled(g, a, b, g.rules[k].state)
    {
      assert g.rules[k] in g.rules;
    }
    forall state | Ruled(g, a, b, state)
      ensures exists k :: 0 <= k < |g.rules| && Matches(g.rules[k], g.arcs[a].id, g.arcs[b].id) &&
                          g.rules[k].state == state
    {
      var rule :| rule in g.rules && rule.from == g.arcs[a].id && rule.to == g.arcs[b].id && rule.state == state;
      var k :| 0 <= k < |g.rules| && g.rules[k] == rule;
      assert Matches(g.rules[k], g.arcs[a].id, g.arcs[b].id);
    }
  }

  lemma JoinedMeaning(q: Query, a: nat, b: nat)
    requires q.Valid() && a < |q.graph.arcs| && b < |q.graph.arcs|
    ensures Joined(q, a, b) <==> LegalTurn(q.graph, a, b)
  {
    hide Blocked, Ruled;
    BlockedMeaning(q.graph, a, b);
  }

  lemma WalkMeaning(q: Query, w: seq<nat>)
    requires q.Valid()
    ensures Walk(q, w) <==> LegalPath(q, w)
    ensures Journey(q, w) <==> LegalTrip(q, w)
  {
    hide Joined, LegalTurn;
    if w != [] && InRange(q.graph, w) {
      forall i, j | 0 <= i && j == i + 1 < |w| ensures Joined(q, w[i], w[j]) <==> LegalTurn(q.graph, w[i], w[j]) {
        JoinedMeaning(q, w[i], w[j]);
      }
    }
  }

  lemma {:induction false} TravelledPrefix(arcs: seq<Arc>, w: seq<nat>, m: nat, n: nat)
    requires n <= m <= |w| && forall i :: 0 <= i < m ==> w[i] < |arcs|
    ensures Travelled(arcs, w[..m], n) == Travelled(arcs, w, n)
  {
    if n > 0 {
      TravelledPrefix(arcs, w, m, n - 1);
    }
  }

  lemma {:induction false} LengthMeaning(q: Query, w: seq<nat>)
    requires q.Valid() && w != [] && InRange(q.graph, w) && w[0] == q.previous
    ensures Length(q, w) + q.previousOffset == Travelled(q.graph.arcs, w, |w|)
  {
    var n := |w| - 1;
    if n == 0 {
      assert Travelled(q.graph.arcs, w, 1) == Travelled(q.graph.arcs, w, 0) + q.graph.arcs[w[0]].length;
    } else {
      LengthMeaning(q, w[..n]);
      TravelledPrefix(q.graph.arcs, w, n, n);
    }
  }

  /** A journey is as long as the arcs before its last, less what lies behind the previous position, plus what lies
      before the current one. */
  lemma JourneyDistanceMeaning(q: Query, w: seq<nat>)
    requires q.Valid() && Journey(q, w)
    ensures LegalTrip(q, w)
    ensures JourneyDistance(q, w) + q.previousOffset == Travelled(q.graph.arcs, w, |w| - 1) + q.currentOffset
  {
    hide Joined;
    WalkMeaning(q, w);
    LengthMeaning(q, w[..|w| - 1]);
    TravelledPrefix(q.graph.arcs, w, |w| - 1, |w| - 1);
  }

  lemma PreferredMeaning(q: Query, v: seq<nat>, w: seq<nat>)
    requires q.Valid() && Journey(q, v) && Journey(q, w) && v != w && RankAtMost(JourneyRank(q, v), JourneyRank(q, w))
    ensures LegalTrip(q, v) && LegalTrip(q, w) && Preferred(q, v, w)
  {
    hide Joined, LegalPath, Travelled, Less;
    JourneyDistanceMeaning(q, v);
    JourneyDistanceMeaning(q, w);
    if |v| == |w| {
      LessMeaning(NatLess, v, w);
      assert v == w[..|v|] ==> v == w;
      if k :| FirstDifference(NatLess, v, w, k) {
        assert v[..k] == w[..k] && v[k] < w[k];
      }
    }
  }

  // ----- what the answers say -----

  /** A found route is preferred to every other legal trip, of any length, and fits the distance budget. */
  lemma FoundRoute(q: Query, out: RouteOutcome) returns (w: seq<nat>)
    requires q.Valid() && RouteSpec(q, out) && out.Found?
    requires !(q.previous == q.current && q.currentOffset >= q.previousOffset)
    ensures LegalTrip(q, w) && out.distance == TripDistance(q, w) <= q.maxDistance
    ensures forall v :: LegalTrip(q, v) && v != w ==> Preferred(q, w, v)
    ensures out.path == w || (w == [q.current, q.current] && out.path == [q.current])
    ensures out.turns == |out.path| - 1
    ensures out.uTurns == |Reversals(q.graph.arcs, out.path)|
  {
    hide Blocked, Joined, Preferred, RankAtMost, Travelled;
    w := FoundIsBestJourney(q, out);
    JourneyDistanceMeaning(q, w);
    forall v | LegalTrip(q, v) && v != w ensures Preferred(q, w, v) {
      WalkMeaning(q, v);
      PreferredMeaning(q, w, v);
    }
    UTurnsMeaning(q, out);
  }

  lemma UTurnsMeaning(q: Query, out: RouteOutcome)
    requires q.Valid() && RouteSpec(q, out) && out.Found? && !SameArcForward(q) && InRange(q.graph, out.path)
    ensures out.uTurns == |Reversals(q.graph.arcs, out.path)|
  {
    hide BestJourney, Blocked;
    var w :| Answers(q, w, out);
    forall i: nat ensures UTurnAt(q.graph, out.path, i) <==> TurnsBack(q.graph.arcs, out.path, i) {
    }
    assert UTurns(q.graph, out.path, |out.path|) == Reversals(q.graph.arcs, out.path);
  }

  /** Moving forward along one arc needs no search and no budget. */
  lemma ForwardRoute(q: Query, out: RouteOutcome)
    requires q.Valid() && RouteSpec(q, out)
    requires q.previous == q.current && q.currentOffset >= q.previousOffset
    ensures out == Found(q.currentOffset - q.previousOffset, 0, 0, [q.current])
  {
  }

  lemma StoppedMeaning(q: Query)
    requires q.Valid()
    ensures BlockedAtTarget(q, ForbiddenTurn) <==> StoppedBy(q, ForbiddenRule)
    ensures !StoppedBy(q, ForbiddenRule) ==> (BlockedAtTarget(q, UnknownRestriction) <==> StoppedBy(q, UnknownRule))
  {
    hide Blocked, Ruled, Joined, LegalTurn;
    forall p, state | StoppedAt(q, p, state)
      ensures Within(q, p) && Blocked(q.graph, q.graph.arcs[Last(p)].id, q.graph.arcs[q.current].id) ==
                              if Ruled(q.graph, Last(p), q.current, ForbiddenRule) then Some(ForbiddenTurn)
                              else if Ruled(q.graph, Last(p), q.current, UnknownRule) then Some(UnknownRestriction)
                              else None
    {
      PathMeaning(q, p);
      BlockedMeaning(q.graph, Last(p), q.current);
    }
    forall p, reason | Within(q, p) && q.graph.arcs[Last(p)].to == q.graph.arcs[q.current].from &&
                       Blocked(q.graph, q.graph.arcs[Last(p)].id, q.graph.arcs[q.current].id) == Some(reason)
      ensures StoppedAt(q, p, if reason == ForbiddenTurn then ForbiddenRule else UnknownRule)
    {
      PathMeaning(q, p);
      BlockedMeaning(q.graph, Last(p), q.current);
    }
  }

  lemma PathMeaning(q: Query, p: seq<nat>)
    requires q.Valid() && (Walk(q, p) || LegalPath(q, p))
    ensures Walk(q, p) && LegalPath(q, p) && p != [] && Last(p) < |q.graph.arcs|
    ensures PathDistance(q, p) == Length(q, p)
  {
    hide Joined, LegalTurn;
    WalkMeaning(q, p);
    LengthMeaning(q, p);
  }

  /** A refusal that is not about budgets: no legal trip fits, and the reason is the strictest rule in the way. */
  lemma RefusedRoute(q: Query, out: RouteOutcome)
    requires q.Valid() && RouteSpec(q, out) && out.Rejected? && out.reason != GraphSearchBudget
    ensures forall w :: LegalTrip(q, w) ==> TripDistance(q, w) > q.maxDistance
    ensures out.reason == if StoppedBy(q, ForbiddenRule) then ForbiddenTurn
                          else if StoppedBy(q, UnknownRule) then UnknownRestriction
                          else NoDirectedPath
  {
    hide Joined, BlockedAtTarget, StoppedBy, LegalPath, Travelled, BestJourney, Walk;
    StoppedMeaning(q);
    forall w | LegalTrip(q, w) ensures TripDistance(q, w) > q.maxDistance {
      WalkMeaning(q, w);
      JourneyDistanceMeaning(q, w);
      RejectionMeansNoJourney(q, out, w);
    }
  }

  /** A budget refusal: the rest of the previous arc is too long, more states than allowed would have to be settled,
      or every legal trip is too long. */
  lemma BudgetRoute(q: Query, out: RouteOutcome)
    requires q.Valid() && RouteSpec(q, out) && out == Rejected(GraphSearchBudget)
    ensures !(q.previous == q.current && q.currentOffset >= q.previousOffset)
    ensures q.graph.arcs[q.previous].length - q.previousOffset <= q.maxDistance &&
            |ExploredStates(q)| <= q.maxStates ==>
              forall w :: LegalTrip(q, w) ==> TripDistance(q, w) > q.maxDistance
  {
    hide Joined, BlockedAtTarget, LegalPath, Travelled, BestJourney;
    if q.graph.arcs[q.previous].length - q.previousOffset <= q.maxDistance && |ExploredStates(q)| <= q.maxStates {
      forall w | LegalTrip(q, w) ensures TripDistance(q, w) > q.maxDistance {
        WalkMeaning(q, w);
        JourneyDistanceMeaning(q, w);
        if JourneyDistance(q, w) <= q.maxDistance {
          JourneyFound(q, out, w);
        }
      }
    }
  }

  /** Whatever else is answered, the budgets were kept. */
  lemma BudgetsKept(q: Query, out: RouteOutcome)
    requires q.Valid() && RouteSpec(q, out) && out != Rejected(GraphSearchBudget)
    requires !(q.previous == q.current && q.currentOffset >= q.previousOffset)
    ensures q.graph.arcs[q.previous].length - q.previousOffset <= q.maxDistance
    ensures |ExploredStates(q)| <= q.maxStates
  {
    hide ExploredStates, BlockedAtTarget, Answers, Completable;
  }
}
