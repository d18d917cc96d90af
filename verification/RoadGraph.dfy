/** Directed road graph with turn restrictions (road_matching.hpp). */
module RoadGraph {

  import opened Wrappers

  datatype Direction = Forward | Reverse

  datatype RuleState = ForbiddenRule | UnknownRule

  datatype Arc = Arc(id: string, from: string, to: string, way: int, direction: Direction, length: real)

  datatype TransitionRule = TransitionRule(from: string, to: string, state: RuleState)

  datatype Graph = Graph(arcs: seq<Arc>, rules: seq<TransitionRule>)

  datatype Rejection =
    | NonPositiveElapsedTime
    | ForbiddenTurn
    | UnknownRestriction
    | NoDirectedPath
    | GraphSearchBudget
    | ImplausibleAbsoluteSpeed

  /** The checks of validate_graph that the exact-arithmetic model keeps. */
  predicate ValidGraph(g: Graph) {
    && g.arcs != []
    && (forall i :: 0 <= i < |g.arcs| ==>
          g.arcs[i].id != "" && g.arcs[i].from != "" && g.arcs[i].to != "" &&
          g.arcs[i].way > 0 && g.arcs[i].length > 0.0)
    && (forall i, j :: 0 <= i < j < |g.arcs| ==> g.arcs[i].id != g.arcs[j].id)
    && (forall k :: 0 <= k < |g.rules| ==>
          (exists i :: 0 <= i < |g.arcs| && g.arcs[i].id == g.rules[k].from) &&
          (exists i :: 0 <= i < |g.arcs| && g.arcs[i].id == g.rules[k].to))
  }

  predicate Matches(rule: TransitionRule, fromId: string, toId: string) {
    rule.from == fromId && rule.to == toId
  }

  /** A turn is forbidden if any of its rules forbids it, otherwise unknown if it has a rule at all. */
  ghost function Blocked(g: Graph, fromId: string, toId: string): (r: Option<Rejection>) {
    if exists k :: 0 <= k < |g.rules| && Matches(g.rules[k], fromId, toId) && g.rules[k].state == ForbiddenRule then
      Some(ForbiddenTurn)
    else if exists k :: 0 <= k < |g.rules| && Matches(g.rules[k], fromId, toId) then
      Some(UnknownRestriction)
    else
      None
  }

  method BlockedTransition(g: Graph, fromId: string, toId: string) returns (r: Option<Rejection>)
    ensures r == Blocked(g, fromId, toId)
  {
    var unknown := false;
    for k := 0 to |g.rules|
      invariant unknown <==> exists j :: 0 <= j < k && Matches(g.rules[j], fromId, toId)
      invariant forall j :: 0 <= j < k && Matches(g.rules[j], fromId, toId) ==> g.rules[j].state != ForbiddenRule
    {
      if !Matches(g.rules[k], fromId, toId) {
        continue;
      }
      if g.rules[k].state == ForbiddenRule {
        return Some(ForbiddenTurn);
      }
      unknown := true;
    }
    return if unknown then Some(UnknownRestriction) else None;
  }

  predicate InRange(g: Graph, path: seq<nat>) {
    forall i :: 0 <= i < |path| ==> path[i] < |g.arcs|
  }

  /** One maneuver back onto the same way in the opposite direction. */
  predicate UTurn(g: Graph, a: nat, b: nat)
    requires a < |g.arcs| && b < |g.arcs|
  {
    g.arcs[a].way == g.arcs[b].way && g.arcs[a].direction != g.arcs[b].direction
  }

  predicate UTurnAt(g: Graph, path: seq<nat>, i: nat)
    requires InRange(g, path)
  {
    0 < i < |path| && UTurn(g, path[i - 1], path[i])
  }

  /** Positions of `path` below `bound` that a U-turn enters. */
  function UTurns(g: Graph, path: seq<nat>, bound: nat): set<nat>
    requires InRange(g, path)
  {
    set i: nat | i < bound && UTurnAt(g, path, i)
  }

  method CountUTurns(g: Graph, path: seq<nat>) returns (count: nat)
    requires InRange(g, path)
    ensures count == |UTurns(g, path, |path|)|
  {
    count := 0;
    assert UTurns(g, path, 1) == {};
    var index := 1;
    while index < |path|
      invariant 1 <= index
      invariant index <= |path| || path == []
      invariant count == |UTurns(g, path, index)|
    {
      assert UTurns(g, path, index + 1) ==
             UTurns(g, path, index) + if UTurnAt(g, path, index) then {index} else {};
      assert index !in UTurns(g, path, index);
      if UTurn(g, path[index - 1], path[index]) {
        count := count + 1;
      }
      index := index + 1;
    }
    assert UTurns(g, path, index) == UTurns(g, path, |path|);
  }
}
