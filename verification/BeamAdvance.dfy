/** One observation of the decoder: its pruned beam is the next level of the search. */
module BeamAdvance {
  import opened Sorting
  import opened TrellisPaths
  import opened BeamSearch
  import opened Beam
  import opened BeamPruning
  import opened BeamStep

  /** The sorted, ranked form of an expanded beam. */
  ghost predicate Arranged(t: Trellis, n: nat, beam: seq<Hypothesis>, expanded: seq<Hypothesis>,
                           sorted: seq<Hypothesis>) {
    && AllRepresent(t, n + 1, sorted) && DistinctPaths(sorted) && RankOrdered(t, sorted) && ChildrenOf(beam, sorted)
    && Sorted(Better, sorted) && |sorted| == |expanded| && Expansion(t, n, Paths(beam), Paths(sorted))
  }

  lemma SameMembersSamePaths(r: seq<Hypothesis>, s: seq<Hypothesis>)
    requires forall h :: h in r <==> h in s
    ensures forall u :: u in Paths(r) <==> u in Paths(s)
  {
    hide Path;
    forall u ensures u in Paths(r) <==> u in Paths(s) {
      if u in Paths(r) {
        var h := MemberOfPaths(r, u);
        PathsMember(s, h);
      }
      if u in Paths(s) {
        var h := MemberOfPaths(s, u);
        PathsMember(r, h);
      }
    }
  }

  /** A beam in decoder order lists its sequences in the order of the search. */
  lemma SortedIsRanked(t: Trellis, n: nat, sorted: seq<Hypothesis>)
    requires UniqueIds(t) && AllRepresent(t, n, sorted) && DistinctPaths(sorted) && RankOrdered(t, sorted)
    requires Sorted(Better, sorted)
    ensures Ranked(t, Paths(sorted)) && forall s :: s in Paths(sorted) ==> GraphValid(t, s) && |s| == n
  {
    hide Score, Before, UniqueIds, GraphValid;
    var paths := Paths(sorted);
    forall i | 0 <= i < |sorted| ensures Represents(t, n, sorted[i]) && sorted[i] in sorted {
    }
    forall i, j | 0 <= i < j < |paths| ensures !PathOrder(t)(paths[j], paths[i]) && paths[i] != paths[j] {
      assert !Better(sorted[j], sorted[i]) && sorted[i] != sorted[j];
      EqualRanks(t, n, sorted, sorted[j], sorted[i]);
    }
  }

  lemma TailOfPaths(t: Trellis, l: Limits, n: nat, filtered: seq<Hypothesis>, kept: seq<Hypothesis>)
    requires AllRepresent(t, n, filtered) && filtered != [] && kept <= filtered && 1 <= |kept| <= l.beamWidth
    requires |kept| == |filtered| || |kept| == l.beamWidth || filtered[|kept|].score < filtered[0].score - l.scoreDelta
    requires forall k :: 0 <= k < |kept| ==> kept[k].score >= filtered[0].score - l.scoreDelta
    ensures Tail(t, l, Paths(filtered), Paths(kept))
  {
    hide Score, GraphValid;
    forall i | 0 <= i < |filtered| ensures Represents(t, n, filtered[i]) && filtered[i] in filtered {
    }
    assert forall k :: 0 <= k < |kept| ==> kept[k] == filtered[k];
  }

  method Arrange(ghost t: Trellis, ghost n: nat, ghost beam: seq<Hypothesis>, ids: seq<string>,
                 expanded: seq<Hypothesis>)
    returns (sorted: seq<Hypothesis>)
    requires UniqueIds(t) && 0 < n < |t.widths| && IdsOf(t, n + 1, ids)
    requires BeamOk(t, n, beam) && Expanded(t, n, beam, expanded) && expanded != []
    ensures Arranged(t, n, beam, expanded, sorted)
  {
    hide Represents, Before, UniqueIds;
    assert AllRepresent(t, n + 1, expanded) && ChildrenOf(beam, expanded) && DistinctPaths(expanded)
      && Expansion(t, n, Paths(beam), Paths(expanded)) by {
      ExpandedIsExpansion(t, n, beam, expanded);
      ExpandedDistinct(t, n, beam, expanded);
    }
    hide Expanded, AllRepresent, RankOrdered;
    var ranked := Rank(t, n + 1, beam, ids, expanded);
    BetterStrictWeak();
    sorted := Sort(Better, ranked);
    PermutationNoDuplicates(sorted, ranked);
    PartFacts(t, n + 1, ranked, sorted);
    SameMembersSamePaths(sorted, ranked);
  }

  lemma CandidatesInRange(t: Trellis, n: nat, ids: seq<string>, s: seq<Hypothesis>)
    requires UniqueIds(t) && IdsOf(t, n, ids) && AllRepresent(t, n, s)
    ensures forall h :: h in s ==> h.candidate < |ids|
    ensures forall c, d :: 0 <= c < d < |ids| ==> ids[c] != ids[d]
  {
    hide Score;
    forall h | h in s ensures h.candidate < |ids| {
      assert Represents(t, n, h);
      PathFront(h);
    }
  }

  /** K per terminal, then score delta and beam width. */
  method Cut(ghost t: Trellis, l: Limits, ghost n: nat, ids: seq<string>, sorted: seq<Hypothesis>)
    returns (kept: seq<Hypothesis>, ghost level: Level)
    requires l.Valid() && UniqueIds(t) && 0 < n <= |t.widths| && IdsOf(t, n, ids) && AllRepresent(t, n, sorted)
    requires DistinctPaths(sorted) && Sorted(Better, sorted) && sorted != []
    ensures level == Level(Paths(sorted), FirstPerTerminal(Paths(sorted), l.perTerminal), Paths(kept))
    ensures Tail(t, l, level.filtered, level.kept)
    ensures kept != [] && NoDuplicates(kept) && forall h :: h in kept ==> h in sorted
  {
    hide AllRepresent, UniqueIds, IdsOf, Tail, Path, TerminalFilter, FirstPerTerminal;
    CandidatesInRange(t, n, ids, sorted);
    var filtered := PruneTerminals(ids, l.perTerminal, sorted);
    FilterSorted(sorted, l.perTerminal);
    FilterNoDuplicates(sorted, l.perTerminal);
    FilterPaths(sorted, l.perTerminal);
    FilterKeepsFirst(Paths(sorted), l.perTerminal);
    PartFacts(t, n, sorted, filtered);
    kept := PruneTail(l.scoreDelta, l.beamWidth, filtered);
    TailOfPaths(t, l, n, filtered, kept);
    level := Level(Paths(sorted), Paths(filtered), Paths(kept));
  }

  /** Rank, sort and prune an expanded beam: exactly the next level of the search. */
  method Prune(ghost t: Trellis, l: Limits, ghost n: nat, ghost beam: seq<Hypothesis>, ids: seq<string>,
               expanded: seq<Hypothesis>)
    returns (next: seq<Hypothesis>, ghost level: Level)
    requires l.Valid() && UniqueIds(t) && 0 < n < |t.widths| && IdsOf(t, n + 1, ids)
    requires BeamOk(t, n, beam) && Expanded(t, n, beam, expanded) && expanded != []
    ensures BeamOk(t, n + 1, next) && NextLevel(t, l, n, Paths(beam), level) && level.kept == Paths(next)
    ensures |level.sorted| == |expanded|
  {
    hide RankOrdered, AllRepresent, UniqueIds, Better, Sorted, IdsOf, NoDuplicates, TerminalFilter, Expanded,
         ChildrenOf, DistinctPaths, Expansion, Tail, Ranked, FirstPerTerminal, Path;
    var sorted := Arrange(t, n, beam, ids, expanded);
    SortedIsRanked(t, n + 1, sorted);
    var kept;
    kept, level := Cut(t, l, n + 1, ids, sorted);
    PartFacts(t, n + 1, sorted, kept);
    next := Rank(t, n + 1, beam, ids, kept);
  }
}
