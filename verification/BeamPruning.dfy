/** Pruning an expanded beam: K hypotheses per terminal candidate, then score delta and beam width. */
module BeamPruning {
  import opened Sorting
  import opened BeamSearch
  import opened Beam

  /** Order of a beam: higher score first, then lower rank. */
  predicate Better(g: Hypothesis, h: Hypothesis) {
    g.score > h.score || (g.score == h.score && g.rank < h.rank)
  }

  lemma BetterStrictWeak()
    ensures StrictWeak(Better)
  {
  }

  function TerminalCount(beam: seq<Hypothesis>, c: nat): nat {
    if beam == [] then 0
    else TerminalCount(beam[..|beam| - 1], c) + if beam[|beam| - 1].candidate == c then 1 else 0
  }

  /** The hypotheses kept when each terminal candidate may be used at most `limit` times. */
  function TerminalFilter(beam: seq<Hypothesis>, limit: nat): (kept: seq<Hypothesis>)
    ensures forall h :: h in kept ==> h in beam
  {
    if beam == [] then []
    else
      var front := TerminalFilter(beam[..|beam| - 1], limit);
      var last := beam[|beam| - 1];
      if TerminalCount(front, last.candidate) >= limit then front else front + [last]
  }

  method PruneTerminals(ids: seq<string>, limit: nat, beam: seq<Hypothesis>) returns (kept: seq<Hypothesis>)
    requires forall c, d :: 0 <= c < d < |ids| ==> ids[c] != ids[d]
    requires forall h :: h in beam ==> h.candidate < |ids|
    ensures kept == TerminalFilter(beam, limit)
  {
    var perTerminal: map<string, nat> := map[];
    kept := [];
    for i := 0 to |beam|
      invariant kept == TerminalFilter(beam[..i], limit)
      invariant forall c :: 0 <= c < |ids| ==>
                  TerminalCount(kept, c) == if ids[c] in perTerminal then perTerminal[ids[c]] else 0
    {
      var h := beam[i];
      assert beam[..i + 1][..i] == beam[..i] && h in beam;
      var count := if ids[h.candidate] in perTerminal then perTerminal[ids[h.candidate]] else 0;
      if count >= limit {
        continue;
      }
      assert (kept + [h])[..|kept|] == kept;
      perTerminal := perTerminal[ids[h.candidate] := count + 1];
      kept := kept + [h];
    }
    assert beam[..|beam|] == beam;
  }

  lemma {:induction false} FilterNoDuplicates(beam: seq<Hypothesis>, limit: nat)
    requires NoDuplicates(beam)
    ensures NoDuplicates(TerminalFilter(beam, limit))
  {
    if beam != [] {
      FilterNoDuplicates(beam[..|beam| - 1], limit);
      assert beam[|beam| - 1] !in beam[..|beam| - 1];
    }
  }

  lemma {:induction false} FilterSorted(beam: seq<Hypothesis>, limit: nat)
    requires Sorted(Better, beam)
    ensures Sorted(Better, TerminalFilter(beam, limit))
  {
    if beam != [] {
      var front, last := beam[..|beam| - 1], beam[|beam| - 1];
      FilterSorted(front, limit);
      forall h | h in TerminalFilter(front, limit) ensures !Better(last, h) {
        var j :| 0 <= j < |front| && front[j] == h;
        assert beam[j] == h;
      }
    }
  }

  lemma CountIsTally(beam: seq<Hypothesis>, c: nat)
    ensures TerminalCount(beam, c) == Tally(Paths(beam), c)
  {
    if beam != [] {
      CountIsTally(beam[..|beam| - 1], c);
      assert Paths(beam)[..|beam| - 1] == Paths(beam[..|beam| - 1]);
    }
  }

  /** Filtering hypotheses is filtering the sequences they stand for. */
  lemma {:induction false} FilterPaths(beam: seq<Hypothesis>, limit: nat)
    ensures Paths(TerminalFilter(beam, limit)) == FirstPerTerminal(Paths(beam), limit)
  {
    hide Path, TerminalCount, Tally;
    if beam != [] {
      var front, last := beam[..|beam| - 1], beam[|beam| - 1];
      FilterPaths(front, limit);
      assert Paths(beam)[..|beam| - 1] == Paths(front);
      CountIsTally(TerminalFilter(front, limit), last.candidate);
    }
  }

  /** Score delta and beam width cut a suffix of the sorted beam. */
  method PruneTail(delta: real, width: nat, beam: seq<Hypothesis>) returns (kept: seq<Hypothesis>)
    requires beam != [] && Sorted(Better, beam) && width > 0 && delta >= 0.0
    ensures kept <= beam && 1 <= |kept| <= width
    ensures |kept| == |beam| || |kept| == width || beam[|kept|].score < beam[0].score - delta
    ensures forall k :: 0 <= k < |kept| ==> kept[k].score >= beam[0].score - delta
  {
    var best := beam[0].score;
    kept := [];
    for i := 0 to |beam|
      invariant |kept| <= i && |kept| <= width
      invariant kept == beam[..|kept|] && forall k :: 0 <= k < |kept| ==> kept[k].score >= best - delta
      invariant i > 0 ==> |kept| > 0
      invariant |kept| < i ==> beam[|kept|].score < best - delta
    {
      assert |kept| < i ==> !Better(beam[i], beam[|kept|]);
      if beam[i].score < best - delta {
        continue;
      }
      if |kept| == width {
        break;
      }
      kept := kept + [beam[i]];
    }
  }
}
