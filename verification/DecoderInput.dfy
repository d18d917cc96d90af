/** The input that the decoder accepts (the validation at the head of `decode_candidate_batches`). */
module DecoderInput {
  import opened RoadGraph
  import opened Transition
  import opened BeamSearch
  import opened Decoder

  /** Ranges of the numeric parameters of transitions and decoder. */
  ghost predicate ParametersInRange(p: Problem) {
    var a, d := p.scene.parameters, p.decoder;
    && (forall x :: x in [a.discrepancyScale, a.maxSpeed, a.maxDistance] ==> x > 0.0)
    && (forall x :: x in [a.speedAllowance, a.speedPenalty, a.turnPenalty, a.uTurnPenalty] ==> x >= 0.0)
    && (forall x :: x in [d.limits.scoreDelta, d.ambiguity, d.stationarySpeed, d.stationaryTolerance] ==> x >= 0.0)
    && (forall x :: x in [a.enterOffMap, a.exitOffMap, a.stayOffMap] ==> x <= 0.0)
    && (forall n :: n in [a.maxStates, d.limits.beamWidth, d.limits.perTerminal, d.maxObservations] ==> n != 0)
    && d.stationaryMinimum != 0 && d.stationaryMinimum != 1
    && a.scorePlaces < 16 && d.places < 16 && a.distancePlaces < 13
  }

  /** Arcs have ids of their own, end points, a way and a length; rules speak of arcs of the graph. */
  ghost predicate GraphInOrder(g: Graph) {
    && |g.arcs| != 0
    && (forall arc :: arc in g.arcs ==>
          "" !in [arc.id, arc.from, arc.to] && !(arc.way <= 0) && !(arc.length <= 0.0))
    && (forall i, j :: 0 <= i < |g.arcs| && 0 <= j < |g.arcs| && g.arcs[i].id == g.arcs[j].id ==> i == j)
    && (forall rule, id :: rule in g.rules && id in [rule.from, rule.to] ==>
          exists arc :: arc in g.arcs && arc.id == id)
  }

  /** As many batches as observations, at least one and no more than allowed; observations named apart, in strict order
      of time, with nonnegative speeds; candidates of a batch named apart and placed on their observation. */
  ghost predicate SequenceInOrder(p: Problem) {
    var obs, n := p.scene.observations, |p.batches|;
    && |obs| == n && 1 <= n <= p.decoder.maxObservations
    && (forall o :: o in obs ==> o.id != "" && !(o.speed < 0.0))
    && (forall i, j :: 0 <= i < n && 0 <= j < n && obs[i].id == obs[j].id ==> i == j)
    && (forall i, j :: 0 <= i && i + 1 == j < n ==> obs[j].time > obs[i].time)
    && forall i :: 0 <= i < n ==> BatchInOrder(p.scene.graph, p.batches[i], i)
  }

  ghost predicate BatchInOrder(g: Graph, batch: seq<Candidate>, observation: nat) {
    && |batch| >= 1 && (forall c :: c in batch ==> Placed(g, c, observation))
    && forall a, b :: 0 <= a < |batch| && 0 <= b < |batch| && batch[a].id == batch[b].id ==> a == b
  }

  lemma GraphMeaning(g: Graph)
    ensures ValidGraph(g) <==> GraphInOrder(g)
  {
    if ValidGraph(g) {
      forall rule, id | rule in g.rules && id in [rule.from, rule.to]
        ensures exists arc :: arc in g.arcs && arc.id == id
      {
        var k :| 0 <= k < |g.rules| && g.rules[k] == rule;
        var i :| 0 <= i < |g.arcs| && g.arcs[i].id == id;
        assert g.arcs[i] in g.arcs;
      }
    }
    if GraphInOrder(g) {
      forall i | 0 <= i < |g.arcs|
        ensures g.arcs[i].id != "" && g.arcs[i].from != "" && g.arcs[i].to != "" && g.arcs[i].way > 0
        ensures g.arcs[i].length > 0.0
      {
        assert g.arcs[i] in g.arcs;
      }
      forall k, id | 0 <= k < |g.rules| && id in [g.rules[k].from, g.rules[k].to]
        ensures exists i :: 0 <= i < |g.arcs| && g.arcs[i].id == id
      {
        assert g.rules[k] in g.rules;
        var arc :| arc in g.arcs && arc.id == id;
        var i :| 0 <= i < |g.arcs| && g.arcs[i] == arc;
      }
      forall k | 0 <= k < |g.rules|
        ensures exists i :: 0 <= i < |g.arcs| && g.arcs[i].id == g.rules[k].from
        ensures exists i :: 0 <= i < |g.arcs| && g.arcs[i].id == g.rules[k].to
      {
        assert g.rules[k].from in [g.rules[k].from, g.rules[k].to];
        assert g.rules[k].to in [g.rules[k].from, g.rules[k].to];
      }
    }
  }

  lemma ParametersMeaning(p: Problem)
    ensures ValidParameters(p.scene.parameters) && ValidDecoder(p.decoder) <==> ParametersInRange(p)
  {
    var a, d := p.scene.parameters, p.decoder;
    if ParametersInRange(p) {
      var positive, counts := [a.discrepancyScale, a.maxSpeed, a.maxDistance],
                              [a.maxStates, d.limits.beamWidth, d.limits.perTerminal, d.maxObservations];
      var costs, bounds := [a.speedAllowance, a.speedPenalty, a.turnPenalty, a.uTurnPenalty],
                           [d.limits.scoreDelta, d.ambiguity, d.stationarySpeed, d.stationaryTolerance];
      var losses := [a.enterOffMap, a.exitOffMap, a.stayOffMap];
      assert positive[0] in positive && positive[1] in positive && positive[2] in positive;
      assert counts[0] in counts && counts[1] in counts && counts[2] in counts && counts[3] in counts;
      assert costs[0] in costs && costs[1] in costs && costs[2] in costs && costs[3] in costs;
      assert bounds[0] in bounds && bounds[1] in bounds && bounds[2] in bounds && bounds[3] in bounds;
      assert losses[0] in losses && losses[1] in losses && losses[2] in losses;
    }
  }

  lemma BatchMeaning(g: Graph, batch: seq<Candidate>, i: nat)
    ensures ValidBatch(g, batch, i) <==> BatchInOrder(g, batch, i)
  {
    forall c ensures ValidCandidate(g, c, i) <==> Placed(g, c, i) {
    }
    if ValidBatch(g, batch, i) {
      forall c | c in batch ensures Placed(g, c, i) {
        var k :| 0 <= k < |batch| && batch[k] == c;
      }
    }
  }

  /** The decoder accepts exactly the inputs in order. */
  lemma ValidMeaning(p: Problem)
    ensures p.Valid() <==> GraphInOrder(p.scene.graph) && ParametersInRange(p) && SequenceInOrder(p)
  {
    hide ValidGraph, GraphInOrder, ValidParameters, ValidDecoder, ParametersInRange, ValidBatch, BatchInOrder;
    GraphMeaning(p.scene.graph);
    ParametersMeaning(p);
    forall g, batch, i: nat ensures ValidBatch(g, batch, i) <==> BatchInOrder(g, batch, i) {
      BatchMeaning(g, batch, i);
    }
    ObservationsMeaning(p.scene.observations);
  }

  lemma ObservationsMeaning(obs: seq<Observation>)
    ensures (forall i :: 0 <= i < |obs| ==> obs[i].speed >= 0.0 && obs[i].id != "") <==>
            (forall o :: o in obs ==> o.id != "" && !(o.speed < 0.0))
    ensures (forall i, j :: 0 <= i < j < |obs| ==> obs[i].id != obs[j].id) <==>
            (forall i, j :: 0 <= i < |obs| && 0 <= j < |obs| && obs[i].id == obs[j].id ==> i == j)
    ensures (forall i :: 0 < i < |obs| ==> InOrder(obs, i)) <==>
            (forall i, j :: 0 <= i && i + 1 == j < |obs| ==> obs[j].time > obs[i].time)
  {
    if forall o :: o in obs ==> o.id != "" && !(o.speed < 0.0) {
      forall i | 0 <= i < |obs| ensures obs[i].speed >= 0.0 && obs[i].id != "" {
        assert obs[i] in obs;
      }
    }
    if forall i :: 0 < i < |obs| ==> InOrder(obs, i) {
      forall i, j | 0 <= i && i + 1 == j < |obs| ensures obs[j].time > obs[i].time {
        assert InOrder(obs, j);
      }
    }
  }
}
