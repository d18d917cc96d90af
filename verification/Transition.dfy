/** Scoring one transition between consecutive matched candidates (`score_transition_impl`). */
module Transition {
  import opened Wrappers
  import opened Numbers
  import opened Rounding
  import opened RoadGraph
  import opened Routing
  import Search = RouteSearch
  import RouteProperties

  datatype Point = Point(x: real, y: real)

  datatype Observation = Observation(id: string, time: int64, position: Point, speed: real)

  datatype Candidate = Candidate(id: string, observation: nat, arc: Option<nat>, offset: Option<real>, emission: real) {
    predicate OffMap() { arc.None? }
  }

  datatype Parameters = Parameters(
    discrepancyScale: real, maxSpeed: real, speedAllowance: real, speedPenalty: real,
    turnPenalty: real, uTurnPenalty: real, enterOffMap: real, exitOffMap: real, stayOffMap: real,
    maxDistance: real, maxStates: nat, scorePlaces: nat, distancePlaces: nat)

  /** The checks of validate_transition_parameters, with the decimal places of the distance rounding. */
  predicate ValidParameters(p: Parameters) {
    && p.discrepancyScale > 0.0 && p.maxSpeed > 0.0 && p.speedAllowance >= 0.0 && p.speedPenalty >= 0.0
    && p.turnPenalty >= 0.0 && p.uTurnPenalty >= 0.0
    && p.enterOffMap <= 0.0 && p.exitOffMap <= 0.0 && p.stayOffMap <= 0.0
    && p.maxDistance > 0.0 && p.maxStates > 0 && p.scorePlaces <= 15 && p.distancePlaces <= 12
  }

  /** Everything a transition score depends on besides its two candidates. */
  datatype Scene = Scene(graph: Graph, observations: seq<Observation>, metric: (Point, Point) -> real,
                         parameters: Parameters)
  {
    predicate Valid() {
      ValidGraph(graph) && ValidParameters(parameters) &&
      forall i :: 0 <= i < |observations| ==> observations[i].speed >= 0.0
    }
  }

  /** validate_candidate_reference. */
  predicate ValidCandidate(g: Graph, c: Candidate, observation: nat) {
    c.id != "" && c.observation == observation &&
    match c.arc
    case None => c.offset.None?
    case Some(arc) => arc < |g.arcs| && c.offset.Some? && 0.0 <= c.offset.value <= g.arcs[arc].length
  }

  datatype TransitionError = InvalidQuery | ElapsedTimeOverflow

  datatype TransitionResult =
    | Impossible(reason: Rejection)
    | OffMapStep(total: real)
    | OnRoadStep(graphDistance: real, turns: nat, uTurns: nat, path: seq<nat>,
                 pathScore: real, speedScore: real, turnScore: real, total: real)

  /** The overflow guard in front of the int64 subtraction. */
  predicate ElapsedOverflows(previous: int64, current: int64) {
    (previous < 0 && current > INT64_MAX + previous) || (previous > 0 && current < INT64_MIN + previous)
  }

  /** The guard refuses exactly the differences that int64 cannot hold. */
  lemma ElapsedOverflowsExact(previous: int64, current: int64)
    ensures ElapsedOverflows(previous, current) <==> !(INT64_MIN <= current - previous <= INT64_MAX)
  {
  }

  function RouteQuery(s: Scene, previous: Candidate, current: Candidate): (q: Query)
    requires s.Valid() && !previous.OffMap() && !current.OffMap()
    requires ValidCandidate(s.graph, previous, previous.observation)
    requires ValidCandidate(s.graph, current, current.observation)
    ensures q.Valid()
  {
    Query(s.graph, previous.arc.value, previous.offset.value, current.arc.value, current.offset.value,
          s.parameters.maxDistance, s.parameters.maxStates)
  }

  function OffMapScore(p: Parameters, previous: Candidate, current: Candidate): real {
    if previous.OffMap() == current.OffMap() then p.stayOffMap
    else if previous.OffMap() then p.exitOffMap
    else p.enterOffMap
  }

  /** Penalty for the disagreement between route length and observed displacement, in units of the scale. */
  function PathScore(p: Parameters, graphDistance: real, displacement: real): (score: real)
    requires ValidParameters(p)
    ensures score <= 0.0
    ensures score * p.discrepancyScale == -Abs(graphDistance - displacement)
  {
    var discrepancy := Abs(graphDistance - displacement);
    QuotientNonPositive(discrepancy, p.discrepancyScale);
    MulDiv(-discrepancy, p.discrepancyScale);
    -discrepancy / p.discrepancyScale
  }

  /** Penalty for exceeding the faster of the two observed speeds by more than the allowance. */
  function SpeedScore(p: Parameters, impliedSpeed: real, supportedSpeed: real): (score: real)
    requires ValidParameters(p)
    ensures score <= 0.0
  {
    var excess := Max(0.0, impliedSpeed - supportedSpeed - p.speedAllowance);
    ProductNonPositive(excess, p.speedPenalty);
    -excess * p.speedPenalty
  }

  /** Free up to the supported speed and the allowance; beyond that, every further unit of speed costs the penalty. */
  lemma SpeedCosts(p: Parameters, supportedSpeed: real, low: real, high: real)
    requires ValidParameters(p) && low <= high
    ensures high <= supportedSpeed + p.speedAllowance ==> SpeedScore(p, high, supportedSpeed) == 0.0
    ensures low >= supportedSpeed + p.speedAllowance ==>
              SpeedScore(p, low, supportedSpeed) - SpeedScore(p, high, supportedSpeed) == (high - low) * p.speedPenalty
  {
    if low >= supportedSpeed + p.speedAllowance {
      var x, y, c := low - supportedSpeed - p.speedAllowance, high - supportedSpeed - p.speedAllowance, p.speedPenalty;
      assert SpeedScore(p, low, supportedSpeed) == -x * c && SpeedScore(p, high, supportedSpeed) == -y * c;
      assert high - low == y - x;
      assert (y - x) * c == y * c - x * c;
    }
  }

  function TurnScore(p: Parameters, turns: nat, uTurns: nat): (score: real)
    requires ValidParameters(p)
    ensures score <= 0.0
  {
    ProductNonPositive(turns as real, p.turnPenalty);
    ProductNonPositive(uTurns as real, p.uTurnPenalty);
    -(turns as real * p.turnPenalty + uTurns as real * p.uTurnPenalty)
  }

  /** A route without turns is free; each turn costs its penalty, and each U-turn its own. */
  lemma TurnCosts(p: Parameters, turns: nat, uTurns: nat)
    requires ValidParameters(p)
    ensures TurnScore(p, 0, 0) == 0.0
    ensures TurnScore(p, turns + 1, uTurns) == TurnScore(p, turns, uTurns) - p.turnPenalty
    ensures TurnScore(p, turns, uTurns + 1) == TurnScore(p, turns, uTurns) - p.uTurnPenalty
  {
    var t, u := turns as real, uTurns as real;
    assert (t + 1.0) * p.turnPenalty == t * p.turnPenalty + p.turnPenalty;
    assert (u + 1.0) * p.uTurnPenalty == u * p.uTurnPenalty + p.uTurnPenalty;
  }

  lemma ProductNonPositive(a: real, b: real)
    requires a >= 0.0 && b >= 0.0
    ensures -a * b <= 0.0 && a * b >= 0.0
  {
  }

  lemma QuotientNonPositive(a: real, b: real)
    requires a >= 0.0 && b > 0.0
    ensures -a / b <= 0.0
  {
  }

  /** Score of a route between two on-road candidates. */
  function RouteStep(s: Scene, previous: Observation, current: Observation, route: RouteOutcome)
    : (r: TransitionResult)
    requires s.Valid() && current.time > previous.time
    ensures r.OnRoadStep? ==> r.total <= 0.0
  {
    var p := s.parameters;
    match route
    case Rejected(reason) => Impossible(reason)
    case Found(distance, turns, uTurns, path) =>
      var elapsed := (current.time - previous.time) as real / 1000000000.0;
      var graphDistance := Round(distance, p.distancePlaces);
      var impliedSpeed := graphDistance / elapsed;
      if impliedSpeed > p.maxSpeed then
        Impossible(ImplausibleAbsoluteSpeed)
      else
        var pathScore := PathScore(p, graphDistance, s.metric(previous.position, current.position));
        var speedScore := SpeedScore(p, impliedSpeed, Max(previous.speed, current.speed));
        var turnScore := TurnScore(p, turns, uTurns);
        var total := pathScore + speedScore + turnScore;
        RoundNonPositive(total, p.scorePlaces);
        OnRoadStep(graphDistance, turns, uTurns, path,
                   Round(pathScore, p.scorePlaces), Round(speedScore, p.scorePlaces),
                   Round(turnScore, p.scorePlaces), Round(total, p.scorePlaces))
  }

  /** The one answer of a route query. */
  ghost function RouteOf(q: Query): RouteOutcome
    requires q.Valid()
  {
    if exists out :: RouteSpec(q, out) then
      var out :| RouteSpec(q, out); out
    else
      Rejected(NoDirectedPath)
  }

  lemma RouteOfIs(q: Query, out: RouteOutcome)
    requires q.Valid() && RouteSpec(q, out)
    ensures RouteOf(q) == out
  {
    hide RouteSpec;
    RouteProperties.RouteSpecFunctional(q, out, RouteOf(q));
  }

  predicate ValidStep(s: Scene, i: nat, previous: Candidate, j: nat, current: Candidate) {
    i < |s.observations| && j < |s.observations| &&
    ValidCandidate(s.graph, previous, i) && ValidCandidate(s.graph, current, j)
  }

  /** The transition between candidate `previous` of observation `i` and `current` of observation `j`. */
  ghost function TransitionOf(s: Scene, i: nat, previous: Candidate, j: nat, current: Candidate)
    : Result<TransitionResult, TransitionError>
    requires s.Valid()
  {
    if !ValidStep(s, i, previous, j, current) then Err(InvalidQuery)
    else if ElapsedOverflows(s.observations[i].time, s.observations[j].time) then Err(ElapsedTimeOverflow)
    else if s.observations[j].time <= s.observations[i].time then Ok(Impossible(NonPositiveElapsedTime))
    else if previous.OffMap() || current.OffMap() then
      Ok(OffMapStep(Round(OffMapScore(s.parameters, previous, current), s.parameters.scorePlaces)))
    else
      Ok(RouteStep(s, s.observations[i], s.observations[j], RouteOf(RouteQuery(s, previous, current))))
  }

  // ----- the same in plain terms -----

  /** The candidate belongs to this observation and lies on an arc, at an offset within it, or on none. */
  ghost predicate Placed(g: Graph, c: Candidate, observation: nat) {
    && c.id != "" && c.observation == observation && (c.arc.Some? <==> c.offset.Some?)
    && (c.arc.Some? ==> c.arc.value < |g.arcs| && 0.0 <= c.offset.value <= g.arcs[c.arc.value].length)
  }

  /** `path`, `speed` and `turn` are the penalties of `d` metres in `ns` nanoseconds. */
  ghost predicate Penalties(p: Parameters, d: real, displacement: real, ns: real, faster: real, turns: nat, uTurns: nat,
                            path: real, speed: real, turn: real) {
    && path * p.discrepancyScale == (if d < displacement then d - displacement else displacement - d)
    && (d * 1000000000.0 <= (faster + p.speedAllowance) * ns ==> speed == 0.0)
    && (d * 1000000000.0 > (faster + p.speedAllowance) * ns ==>
          speed * ns == ((faster + p.speedAllowance) * ns - d * 1000000000.0) * p.speedPenalty)
    && turn == -(turns as real * p.turnPenalty) - uTurns as real * p.uTurnPenalty
  }

  /** What a route between two observations is worth: refused above the greatest speed, else three penalties. */
  ghost predicate RouteWorth(s: Scene, before: Observation, after: Observation, route: RouteOutcome,
                             r: TransitionResult)
  {
    match route
    case Rejected(reason) => r == Impossible(reason)
    case Found(distance, turns, uTurns, path) =>
      var p := s.parameters;
      var ns := (after.time - before.time) as real;
      var d := Round(distance, p.distancePlaces);
      if d * 1000000000.0 > p.maxSpeed * ns then
        r == Impossible(ImplausibleAbsoluteSpeed)
      else
        exists a, b, c ::
          Penalties(p, d, s.metric(before.position, after.position), ns,
                    if before.speed < after.speed then after.speed else before.speed, turns, uTurns, a, b, c) &&
          r == OnRoadStep(d, turns, uTurns, path, Round(a, p.scorePlaces), Round(b, p.scorePlaces),
                          Round(c, p.scorePlaces), Round(a + b + c, p.scorePlaces))
  }

  /** What a transition is, case by case. */
  ghost predicate StepMeaning(s: Scene, i: nat, previous: Candidate, j: nat, current: Candidate,
                              r: Result<TransitionResult, TransitionError>)
    requires s.Valid()
  {
    var p := s.parameters;
    if !(i < |s.observations| && j < |s.observations| &&
         Placed(s.graph, previous, i) && Placed(s.graph, current, j)) then
      r == Err(InvalidQuery)
    else
      var elapsed := s.observations[j].time - s.observations[i].time;
      if elapsed < INT64_MIN || elapsed > INT64_MAX then r == Err(ElapsedTimeOverflow)
      else if elapsed <= 0 then r == Ok(Impossible(NonPositiveElapsedTime))
      else
        match (previous.arc, current.arc)
        case (None, None) => r == Ok(OffMapStep(Round(p.stayOffMap, p.scorePlaces)))
        case (None, Some(_)) => r == Ok(OffMapStep(Round(p.exitOffMap, p.scorePlaces)))
        case (Some(_), None) => r == Ok(OffMapStep(Round(p.enterOffMap, p.scorePlaces)))
        case (Some(a), Some(b)) =>
          var q := Query(s.graph, a, previous.offset.value, b, current.offset.value, p.maxDistance, p.maxStates);
          q.Valid() && r.Ok? &&
          exists route :: RouteSpec(q, route) && RouteWorth(s, s.observations[i], s.observations[j], route, r.value)
  }

  lemma SpeedMeaning(d: real, elapsed: int, bound: real)
    requires elapsed > 0
    ensures d / (elapsed as real / 1000000000.0) > bound <==> d * 1000000000.0 > bound * elapsed as real
    ensures d / (elapsed as real / 1000000000.0) * elapsed as real == d * 1000000000.0
  {
    var ns := elapsed as real;
    var v := d / (ns / 1000000000.0);
    assert v * (ns / 1000000000.0) == d;
    assert v * ns == d * 1000000000.0;
    MulMonotone(v, bound, ns);
  }

  lemma SpeedPenaltyMeaning(p: Parameters, implied: real, supported: real, ns: real, scaled: real)
    requires ValidParameters(p) && ns > 0.0 && implied * ns == scaled
    ensures scaled <= (supported + p.speedAllowance) * ns ==> SpeedScore(p, implied, supported) == 0.0
    ensures scaled > (supported + p.speedAllowance) * ns ==>
              SpeedScore(p, implied, supported) * ns == ((supported + p.speedAllowance) * ns - scaled) * p.speedPenalty
  {
    var free := supported + p.speedAllowance;
    MulMonotone(implied, free, ns);
    if scaled > free * ns {
      SpeedCosts(p, supported, free, implied);
      var score := SpeedScore(p, implied, supported);
      assert score == -((implied - free) * p.speedPenalty);
      Distribute(implied, free, ns, p.speedPenalty);
    } else {
      SpeedCosts(p, supported, implied, implied);
    }
  }

  lemma Distribute(x: real, y: real, n: real, c: real)
    ensures -((x - y) * c) * n == (y * n - x * n) * c
  {
    assert (x - y) * c * n == (x - y) * n * c;
    assert (x - y) * n == x * n - y * n;
  }

  lemma PenaltiesMeaning(p: Parameters, d: real, displacement: real, elapsed: int, supported: real, turns: nat,
                         uTurns: nat)
    requires ValidParameters(p) && elapsed > 0
    ensures Penalties(p, d, displacement, elapsed as real, supported, turns, uTurns,
                      PathScore(p, d, displacement),
                      SpeedScore(p, d / (elapsed as real / 1000000000.0), supported), TurnScore(p, turns, uTurns))
  {
    hide PathScore, SpeedScore, TurnScore;
    var implied := d / (elapsed as real / 1000000000.0);
    SpeedMeaning(d, elapsed, p.maxSpeed);
    SpeedPenaltyMeaning(p, implied, supported, elapsed as real, d * 1000000000.0);
    TurnMeaning(p, turns, uTurns);
  }

  lemma RouteWorthMeaning(s: Scene, before: Observation, after: Observation, route: RouteOutcome)
    requires s.Valid() && after.time > before.time
    ensures RouteWorth(s, before, after, route, RouteStep(s, before, after, route))
  {
    hide Round, SpeedScore, TurnScore, PathScore, Penalties;
    if route.Found? {
      var p := s.parameters;
      var elapsed := after.time - before.time;
      var d := Round(route.distance, p.distancePlaces);
      SpeedMeaning(d, elapsed, p.maxSpeed);
      PenaltiesMeaning(p, d, s.metric(before.position, after.position), elapsed, Max(before.speed, after.speed),
                       route.turns, route.uTurns);
    }
  }

  lemma TurnMeaning(p: Parameters, turns: nat, uTurns: nat)
    requires ValidParameters(p)
    ensures TurnScore(p, turns, uTurns) == -(turns as real * p.turnPenalty) - uTurns as real * p.uTurnPenalty
  {
  }

  /** A transition that asks for a route. */
  ghost predicate Driven(s: Scene, i: nat, previous: Candidate, j: nat, current: Candidate) {
    ValidStep(s, i, previous, j, current) && !previous.OffMap() && !current.OffMap() &&
    0 < s.observations[j].time - s.observations[i].time <= INT64_MAX
  }

  /** The specification of a transition means what the plain terms say. */
  lemma TransitionMeaning(s: Scene, i: nat, previous: Candidate, j: nat, current: Candidate)
    requires s.Valid()
    ensures StepMeaning(s, i, previous, j, current, TransitionOf(s, i, previous, j, current))
  {
    hide RouteSpec, Round, RouteWorth, RouteStep, RouteOf;
    if Driven(s, i, previous, j, current) {
      var route := RouteProperties.RouteExists(RouteQuery(s, previous, current));
      RouteOfIs(RouteQuery(s, previous, current), route);
      RouteWorthMeaning(s, s.observations[i], s.observations[j], RouteOf(RouteQuery(s, previous, current)));
    }
  }

  method ScoreTransition(s: Scene, i: nat, previous: Candidate, j: nat, current: Candidate)
    returns (r: Result<TransitionResult, TransitionError>)
    requires s.Valid()
    ensures r == TransitionOf(s, i, previous, j, current) && StepMeaning(s, i, previous, j, current, r)
  {
    hide RouteSpec, StepMeaning, RouteStep, Round;
    if !ValidStep(s, i, previous, j, current) {
      r := Err(InvalidQuery);
    } else if ElapsedOverflows(s.observations[i].time, s.observations[j].time) {
      r := Err(ElapsedTimeOverflow);
    } else if s.observations[j].time <= s.observations[i].time {
      r := Ok(Impossible(NonPositiveElapsedTime));
    } else if previous.OffMap() || current.OffMap() {
      r := Ok(OffMapStep(Round(OffMapScore(s.parameters, previous, current), s.parameters.scorePlaces)));
    } else {
      var q := RouteQuery(s, previous, current);
      var route := Search.Route(q);
      RouteOfIs(q, route);
      r := Ok(RouteStep(s, s.observations[i], s.observations[j], route));
    }
    TransitionMeaning(s, i, previous, j, current);
  }

  /** No transition is ever rewarded: every possible step scores at most zero. */
  lemma StepNeverRewarded(s: Scene, i: nat, previous: Candidate, j: nat, current: Candidate)
    requires s.Valid() && TransitionOf(s, i, previous, j, current).Ok?
    ensures var r := TransitionOf(s, i, previous, j, current).value;
            r.Impossible? || r.total <= 0.0
  {
    var p := s.parameters;
    if previous.OffMap() || current.OffMap() {
      RoundNonPositive(OffMapScore(p, previous, current), p.scorePlaces);
    }
  }
}
