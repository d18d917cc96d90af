/** Beam search as a relation on candidate sequences: what is expanded, ranked and kept at every observation. */
module BeamSearch {
  import opened Sorting
  import opened TrellisPaths

  datatype Limits = Limits(beamWidth: nat, perTerminal: nat, scoreDelta: real) {
    predicate Valid() { beamWidth > 0 && perTerminal > 0 && scoreDelta >= 0.0 }
  }

  ghost function PathOrder(t: Trellis): (seq<nat>, seq<nat>) -> bool {
    (s: seq<nat>, u: seq<nat>) => GraphValid(t, s) && GraphValid(t, u) && Precedes(t, s, u)
  }

  // ----- K sequences per terminal candidate -----

  predicate EndsOn(s: seq<nat>, c: nat) { s != [] && Final(s) == c }

  function Tally(paths: seq<seq<nat>>, c: nat): nat {
    if paths == [] then 0
    else Tally(paths[..|paths| - 1], c) + if EndsOn(paths[|paths| - 1], c) then 1 else 0
  }

  /** The first `limit` sequences on each terminal candidate. */
  function FirstPerTerminal(paths: seq<seq<nat>>, limit: nat): (kept: seq<seq<nat>>)
    ensures forall s :: s in kept ==> s in paths
  {
    if paths == [] then []
    else
      var front, last := FirstPerTerminal(paths[..|paths| - 1], limit), paths[|paths| - 1];
      if last != [] && Tally(front, Final(last)) >= limit then front else front + [last]
  }

  // ----- one observation -----

  /** All sequences reached, in order; those left per terminal; those left by score delta and beam width. */
  datatype Level = Level(sorted: seq<seq<nat>>, filtered: seq<seq<nat>>, kept: seq<seq<nat>>)

  /** A nonempty prefix: no wider than the beam, within the score delta, and not shorter than these demand. */
  ghost predicate Tail(t: Trellis, l: Limits, filtered: seq<seq<nat>>, kept: seq<seq<nat>>) {
    && (forall s :: s in filtered ==> GraphValid(t, s))
    && kept <= filtered && 1 <= |kept| <= l.beamWidth
    && (forall k :: 0 <= k < |kept| ==> Score(t, filtered[k]) >= Score(t, filtered[0]) - l.scoreDelta)
    && (|kept| < |filtered| ==>
          |kept| == l.beamWidth || Score(t, filtered[|kept|]) < Score(t, filtered[0]) - l.scoreDelta)
  }

  ghost predicate Ranked(t: Trellis, sorted: seq<seq<nat>>) {
    Sorted(PathOrder(t), sorted) && NoDuplicates(sorted)
  }

  /** The first beam is cut by its width only. */
  ghost predicate FirstLevel(t: Trellis, l: Limits, level: Level) {
    && Ranked(t, level.sorted) && (forall s :: s in level.sorted <==> GraphValid(t, s) && |s| == 1)
    && level.filtered == level.sorted != []
    && level.kept == if |level.sorted| > l.beamWidth then level.sorted[..l.beamWidth] else level.sorted
  }

  ghost predicate NextLevel(t: Trellis, l: Limits, n: nat, before: seq<seq<nat>>, level: Level) {
    && Ranked(t, level.sorted) && Expansion(t, n, before, level.sorted)
    && level.filtered == FirstPerTerminal(level.sorted, l.perTerminal)
    && Tail(t, l, level.filtered, level.kept)
  }

  ghost predicate StepOk(t: Trellis, l: Limits, run: seq<Level>, k: int) {
    0 < k < |run| && NextLevel(t, l, k, run[k - 1].kept, run[k])
  }

  /** The levels of a search over the first observations. */
  ghost predicate IsRun(t: Trellis, l: Limits, run: seq<Level>) {
    run != [] && FirstLevel(t, l, run[0]) && forall k :: 0 < k < |run| ==> StepOk(t, l, run, k)
  }

  function Last(run: seq<Level>): Level
    requires run != []
  {
    run[|run| - 1]
  }

  /** Beam width and score delta have removed nothing. */
  ghost predicate Uncut(run: seq<Level>) {
    forall k :: 0 <= k < |run| ==> run[k].kept == run[k].filtered
  }

  /** Nothing at all has been removed. */
  ghost predicate Unpruned(run: seq<Level>) {
    forall k :: 0 <= k < |run| ==> run[k].kept == run[k].sorted
  }

  // ----- a search has one run -----

  lemma RankedUnique(t: Trellis, r: seq<seq<nat>>, s: seq<seq<nat>>)
    requires UniqueIds(t) && Ranked(t, r) && Ranked(t, s) && forall u :: u in r <==> u in s
    requires forall u :: u in r ==> GraphValid(t, u)
    ensures r == s
  {
    hide UniqueIds, GraphValid, Precedes;
    forall u ensures multiset(r)[u] == multiset(s)[u] {
      NoDuplicatesCounts(r, u);
      NoDuplicatesCounts(s, u);
      assert u in r <==> u in multiset(r);
      assert u in s <==> u in multiset(s);
    }
    forall u, v | u in r && v in r && u != v ensures PathOrder(t)(u, v) || PathOrder(t)(v, u) {
      PrecedesTotal(t, u, v);
    }
    SortedUnique(PathOrder(t), r, s);
  }

  lemma TailUnique(t: Trellis, l: Limits, filtered: seq<seq<nat>>, a: seq<seq<nat>>, b: seq<seq<nat>>)
    requires Tail(t, l, filtered, a) && Tail(t, l, filtered, b)
    ensures a == b
  {
    hide Score, GraphValid;
    assert a == filtered[..|a|] && b == filtered[..|b|];
    assert |a| <= |b| <= |a|;
  }

  lemma LevelUnique(t: Trellis, l: Limits, n: nat, before: seq<seq<nat>>, a: Level, b: Level)
    requires UniqueIds(t) && NextLevel(t, l, n, before, a) && NextLevel(t, l, n, before, b)
    ensures a == b
  {
    hide UniqueIds, GraphValid, Tail, FirstPerTerminal, Ranked;
    RankedUnique(t, a.sorted, b.sorted);
    TailUnique(t, l, a.filtered, a.kept, b.kept);
  }

  lemma RunPrefix(t: Trellis, l: Limits, run: seq<Level>, n: nat)
    requires IsRun(t, l, run) && 0 < n <= |run|
    ensures IsRun(t, l, run[..n])
  {
    hide NextLevel, FirstLevel;
    forall k | 0 < k < n ensures StepOk(t, l, run[..n], k) {
      assert StepOk(t, l, run, k);
    }
  }

  /** The search is a function of the trellis and the limits. */
  lemma {:induction false} RunUnique(t: Trellis, l: Limits, a: seq<Level>, b: seq<Level>)
    requires UniqueIds(t) && IsRun(t, l, a) && IsRun(t, l, b) && |a| == |b|
    ensures a == b
    decreases |a|
  {
    hide NextLevel, UniqueIds, Ranked;
    var n := |a| - 1;
    if n == 0 {
      RankedUnique(t, a[0].sorted, b[0].sorted);
    } else {
      RunPrefix(t, l, a, n);
      RunPrefix(t, l, b, n);
      RunUnique(t, l, a[..n], b[..n]);
      assert StepOk(t, l, a, n) && StepOk(t, l, b, n) && a[..n][n - 1] == b[..n][n - 1];
      LevelUnique(t, l, n, a[n - 1].kept, a[n], b[n]);
      assert a == a[..n] + [a[n]] && b == b[..n] + [b[n]];
    }
  }

  /** Every level keeps its best sequence, so no level is empty. */
  lemma KeptSequences(t: Trellis, l: Limits, run: seq<Level>)
    requires l.Valid() && IsRun(t, l, run)
    ensures Last(run).kept != [] && Last(run).sorted != [] && Last(run).kept[0] == Last(run).sorted[0]
    ensures forall s :: s in Last(run).kept ==> GraphValid(t, s) && |s| == |run|
  {
    hide GraphValid, Ranked, Tally, Score;
    var n := |run| - 1;
    var level := run[n];
    if n > 0 {
      assert StepOk(t, l, run, n);
      FilterKeepsFirst(level.sorted, l.perTerminal);
    }
    assert forall s :: s in level.kept ==> s in level.filtered && s in level.sorted;
  }

  lemma {:induction false} FilterKeepsFirst(paths: seq<seq<nat>>, limit: nat)
    requires paths != [] && limit > 0
    ensures FirstPerTerminal(paths, limit) != [] && FirstPerTerminal(paths, limit)[0] == paths[0]
  {
    if |paths| > 1 {
      FilterKeepsFirst(paths[..|paths| - 1], limit);
    }
  }

  // ----- what the filter leaves behind -----

  lemma {:induction false} FirstPerTerminalDistinct(paths: seq<seq<nat>>, limit: nat)
    requires NoDuplicates(paths)
    ensures NoDuplicates(FirstPerTerminal(paths, limit))
  {
    hide Tally;
    if paths != [] {
      FirstPerTerminalDistinct(paths[..|paths| - 1], limit);
      assert paths[|paths| - 1] !in paths[..|paths| - 1];
    }
  }

  lemma {:induction false} TallyBound(paths: seq<seq<nat>>, limit: nat, c: nat)
    ensures Tally(FirstPerTerminal(paths, limit), c) <= limit
  {
    if paths != [] {
      var front, last := FirstPerTerminal(paths[..|paths| - 1], limit), paths[|paths| - 1];
      TallyBound(paths[..|paths| - 1], limit, c);
      assert (front + [last])[..|front|] == front;
    }
  }

  lemma {:induction false} FilterFull(paths: seq<seq<nat>>, limit: nat)
    ensures |FirstPerTerminal(paths, limit)| <= |paths|
    ensures |FirstPerTerminal(paths, limit)| == |paths| ==> FirstPerTerminal(paths, limit) == paths
  {
    hide Tally;
    if paths != [] {
      FilterFull(paths[..|paths| - 1], limit);
    }
  }

  /** Sequences that end below `bound`. */
  function EndingBelow(paths: seq<seq<nat>>, bound: nat): nat {
    if paths == [] then 0
    else EndingBelow(paths[..|paths| - 1], bound) +
         if paths[|paths| - 1] != [] && Final(paths[|paths| - 1]) < bound then 1 else 0
  }

  lemma {:induction false} EndingStep(paths: seq<seq<nat>>, bound: nat)
    ensures EndingBelow(paths, 0) == 0
    ensures EndingBelow(paths, bound + 1) == EndingBelow(paths, bound) + Tally(paths, bound)
  {
    if paths != [] {
      EndingStep(paths[..|paths| - 1], bound);
    }
  }

  lemma {:induction false} EndingAll(paths: seq<seq<nat>>, bound: nat)
    requires forall i :: 0 <= i < |paths| ==> paths[i] != [] && Final(paths[i]) < bound
    ensures EndingBelow(paths, bound) == |paths|
  {
    if paths != [] {
      EndingAll(paths[..|paths| - 1], bound);
    }
  }

  lemma {:induction false} SizeBound(paths: seq<seq<nat>>, limit: nat, bound: nat)
    requires forall c :: 0 <= c < bound ==> Tally(paths, c) <= limit
    ensures EndingBelow(paths, bound) <= limit * bound
  {
    if bound == 0 {
      EndingStep(paths, 0);
    } else {
      SizeBound(paths, limit, bound - 1);
      EndingStep(paths, bound - 1);
      assert limit * bound == limit * (bound - 1) + limit;
    }
  }

  /** K sequences on each candidate are at most K times the batch. */
  lemma FilteredSize(paths: seq<seq<nat>>, limit: nat, width: nat)
    requires forall s :: s in paths ==> s != [] && Final(s) < width
    ensures |FirstPerTerminal(paths, limit)| <= limit * width
  {
    var kept := FirstPerTerminal(paths, limit);
    forall c: nat | c < width ensures Tally(kept, c) <= limit {
      TallyBound(paths, limit, c);
    }
    SizeBound(kept, limit, width);
    assert forall i :: 0 <= i < |kept| ==> kept[i] in kept;
    EndingAll(kept, width);
  }

  lemma {:induction false} TallyWitness(paths: seq<seq<nat>>, c: nat)
    requires Tally(paths, c) >= 1
    ensures exists i :: 0 <= i < |paths| && EndsOn(paths[i], c)
    ensures Tally(paths, c) >= 2 ==> exists i, j :: 0 <= i < j < |paths| && EndsOn(paths[i], c) && EndsOn(paths[j], c)
  {
    var front := paths[..|paths| - 1];
    if Tally(front, c) >= 1 {
      TallyWitness(front, c);
      var i :| 0 <= i < |front| && EndsOn(front[i], c);
      assert EndsOn(paths[i], c);
    }
    if Tally(front, c) >= 2 {
      var i, j :| 0 <= i < j < |front| && EndsOn(front[i], c) && EndsOn(front[j], c);
      assert EndsOn(paths[i], c) && EndsOn(paths[j], c);
    }
  }

  /** `u` stands no later than `s` in `paths` and ends on the same candidate. */
  ghost predicate Shields(paths: seq<seq<nat>>, u: seq<nat>, s: seq<nat>) {
    exists i, j :: 0 <= i < j < |paths| && paths[i] == u && paths[j] == s && u != [] && EndsOn(s, Final(u))
  }

  lemma ShieldsLonger(paths: seq<seq<nat>>, last: seq<nat>, u: seq<nat>, s: seq<nat>)
    requires Shields(paths, u, s)
    ensures Shields(paths + [last], u, s)
  {
    var i, j :| 0 <= i < j < |paths| && paths[i] == u && paths[j] == s && u != [] && EndsOn(s, Final(u));
    assert (paths + [last])[i] == u && (paths + [last])[j] == s;
  }

  /** A dropped sequence has kept ones before it on its candidate, two of them when the limit is at least two. */
  ghost predicate Shielded(paths: seq<seq<nat>>, kept: seq<seq<nat>>, limit: nat, s: seq<nat>) {
    s in kept ||
    ((exists u :: u in kept && Shields(paths, u, s)) &&
     (limit >= 2 ==> exists u, v :: u in kept && v in kept && u != v && Shields(paths, u, s) && Shields(paths, v, s)))
  }

  lemma ShieldedLonger(paths: seq<seq<nat>>, last: seq<nat>, few: seq<seq<nat>>, many: seq<seq<nat>>, limit: nat,
                       s: seq<nat>)
    requires Shielded(paths, few, limit, s) && few <= many
    ensures Shielded(paths + [last], many, limit, s)
  {
    hide Shields;
    assert forall u :: u in few ==> u in many;
    if s !in few {
      var u :| u in few && Shields(paths, u, s);
      ShieldsLonger(paths, last, u, s);
      if limit >= 2 {
        var v, w :| v in few && w in few && v != w && Shields(paths, v, s) && Shields(paths, w, s);
        ShieldsLonger(paths, last, v, s);
        ShieldsLonger(paths, last, w, s);
      }
    }
  }

  lemma LastShielded(paths: seq<seq<nat>>, last: seq<nat>, kept: seq<seq<nat>>, limit: nat)
    requires last != [] && limit >= 1 && Tally(kept, Final(last)) >= limit
    requires NoDuplicates(kept) && forall u :: u in kept ==> u in paths
    ensures Shielded(paths + [last], kept, limit, last)
  {
    hide Tally;
    TallyWitness(kept, Final(last));
    forall u | u in kept && EndsOn(u, Final(last)) ensures Shields(paths + [last], u, last) {
      var i :| 0 <= i < |paths| && paths[i] == u;
      assert (paths + [last])[i] == u && (paths + [last])[|paths|] == last;
    }
    var i :| 0 <= i < |kept| && EndsOn(kept[i], Final(last));
    assert kept[i] in kept;
    if limit >= 2 {
      var a, b :| 0 <= a < b < |kept| && EndsOn(kept[a], Final(last)) && EndsOn(kept[b], Final(last));
      assert kept[a] in kept && kept[b] in kept && kept[a] != kept[b];
    }
  }

  lemma {:induction false} FilterShields(paths: seq<seq<nat>>, limit: nat, s: seq<nat>)
    requires NoDuplicates(paths) && s in paths && limit >= 1
    ensures Shielded(paths, FirstPerTerminal(paths, limit), limit, s)
  {
    hide Tally, Shielded;
    var front, last := paths[..|paths| - 1], paths[|paths| - 1];
    var before := FirstPerTerminal(front, limit);
    assert paths == front + [last];
    FirstPerTerminalDistinct(front, limit);
    if s in front {
      FilterShields(front, limit, s);
      ShieldedLonger(front, last, before, FirstPerTerminal(paths, limit), limit, s);
    } else if last != [] && Tally(before, Final(last)) >= limit {
      LastShielded(front, last, before, limit);
    } else {
      KeptShielded(paths, FirstPerTerminal(paths, limit), limit, s);
    }
  }

  lemma KeptShielded(paths: seq<seq<nat>>, kept: seq<seq<nat>>, limit: nat, s: seq<nat>)
    requires s in kept
    ensures Shielded(paths, kept, limit, s)
  {
  }

  lemma ShieldDominates(t: Trellis, exact: bool, n: nat, paths: seq<seq<nat>>, u: seq<nat>, s: seq<nat>)
    requires UniqueIds(t) && Ranked(t, paths) && Shields(paths, u, s)
    requires forall v :: v in paths ==> GraphValid(t, v) && |v| == n
    ensures GraphValid(t, s) && Dominates(t, exact, u, s)
  {
    hide UniqueIds, GraphValid, Score, Before;
    var i, j :| 0 <= i < j < |paths| && paths[i] == u && paths[j] == s && u != [] && EndsOn(s, Final(u));
    assert u in paths && s in paths && u != s;
    assert !PathOrder(t)(s, u);
    PrecedesTotal(t, u, s);
  }

  lemma FilterDominates(t: Trellis, exact: bool, n: nat, paths: seq<seq<nat>>, limit: nat, s: seq<nat>)
    requires UniqueIds(t) && Ranked(t, paths) && limit >= 1 && s in paths
    requires forall v :: v in paths ==> GraphValid(t, v) && |v| == n
    ensures GraphValid(t, s) && Dominated(t, exact, FirstPerTerminal(paths, limit), s)
    ensures limit >= 2 ==> DoublyDominated(t, exact, FirstPerTerminal(paths, limit), s)
  {
    hide UniqueIds, GraphValid, Shields, Score, Precedes;
    var kept := FirstPerTerminal(paths, limit);
    FilterShields(paths, limit, s);
    if s in kept {
      assert Dominates(t, exact, s, s);
    } else {
      var u :| u in kept && Shields(paths, u, s);
      ShieldDominates(t, exact, n, paths, u, s);
      if limit >= 2 {
        var v, w :| v in kept && w in kept && v != w && Shields(paths, v, s) && Shields(paths, w, s);
        ShieldDominates(t, exact, n, paths, v, s);
        ShieldDominates(t, exact, n, paths, w, s);
      }
    }
  }

  // ----- what an uncut search guarantees -----

  lemma FilterCovers(t: Trellis, l: Limits, exact: bool, n: nat, before: seq<seq<nat>>, level: Level)
    requires l.Valid() && Askable(t, exact) && n > 0 && NextLevel(t, l, n, before, level)
    ensures CoversBest(t, exact, n, before) ==> CoversBest(t, exact, n + 1, level.filtered)
    ensures l.perTerminal >= 2 && CoversTwo(t, exact, n, before) ==> CoversTwo(t, exact, n + 1, level.filtered)
  {
    hide GraphValid, Tail, Ranked, UniqueIds, GridScores, Dominated, DoublyDominated, CoversBest, CoversTwo,
         FirstPerTerminal;
    forall s | s in level.sorted
      ensures GraphValid(t, s) && Dominated(t, exact, level.filtered, s)
      ensures l.perTerminal >= 2 ==> DoublyDominated(t, exact, level.filtered, s)
    {
      FilterDominates(t, exact, n + 1, level.sorted, l.perTerminal, s);
    }
    if CoversBest(t, exact, n, before) {
      ExpansionCoversBest(t, exact, n, before, level.sorted);
      PruningCoversBest(t, exact, n + 1, level.sorted, level.filtered);
    }
    if l.perTerminal >= 2 && CoversTwo(t, exact, n, before) {
      ExpansionCoversTwo(t, exact, n, before, level.sorted);
      PruningCoversTwo(t, exact, n + 1, level.sorted, level.filtered);
    }
  }

  /** After every uncut search a sequence is kept or dominated, by two others when K is at least two. */
  lemma {:induction false} UncutCovers(t: Trellis, l: Limits, exact: bool, run: seq<Level>)
    requires l.Valid() && Askable(t, exact) && IsRun(t, l, run) && Uncut(run)
    ensures CoversBest(t, exact, |run|, Last(run).kept)
    ensures l.perTerminal >= 2 ==> CoversTwo(t, exact, |run|, Last(run).kept)
  {
    hide GraphValid, NextLevel, Ranked, Askable, CoversBest, CoversTwo;
    var n := |run| - 1;
    if n == 0 {
      FirstCovers(t, l, run[0]);
      AllCoverMore(t, exact, 1, run[0].sorted);
    } else {
      RunPrefix(t, l, run, n);
      UncutCovers(t, l, exact, run[..n]);
      assert StepOk(t, l, run, n);
      FilterCovers(t, l, exact, n, run[n - 1].kept, run[n]);
    }
  }

  lemma FirstCovers(t: Trellis, l: Limits, level: Level)
    requires FirstLevel(t, l, level)
    ensures CoversAll(t, 1, level.sorted)
  {
  }

  /** A search that removed nothing holds every sequence. */
  lemma {:induction false} UnprunedCovers(t: Trellis, l: Limits, run: seq<Level>)
    requires IsRun(t, l, run) && Unpruned(run)
    ensures CoversAll(t, |run|, Last(run).kept)
  {
    hide GraphValid, Ranked, Tail, FirstPerTerminal, CoversAll;
    var n := |run| - 1;
    if n == 0 {
      FirstCovers(t, l, run[0]);
    } else {
      RunPrefix(t, l, run, n);
      UnprunedCovers(t, l, run[..n]);
      assert StepOk(t, l, run, n);
      ExpansionCoversAll(t, n, run[n - 1].kept, run[n].sorted);
    }
  }

  // ----- when nothing is cut -----

  /** One observation is uncut exactly when what the filter leaves fits the width and the score delta. */
  lemma UncutStepIff(t: Trellis, l: Limits, filtered: seq<seq<nat>>, kept: seq<seq<nat>>)
    requires Tail(t, l, filtered, kept)
    ensures kept == filtered <==>
      |filtered| <= l.beamWidth &&
      forall k :: 0 <= k < |filtered| ==> Score(t, filtered[k]) >= Score(t, filtered[0]) - l.scoreDelta
  {
    hide Score, GraphValid;
    assert kept == filtered[..|kept|];
    assert |kept| == |filtered| ==> kept == filtered;
  }

  /** The beam has room for every terminal's sequences, and the score delta for all scores of one length. */
  ghost predicate Roomy(t: Trellis, l: Limits) {
    && (forall i :: 0 <= i < |t.widths| ==> l.perTerminal * t.widths[i] <= l.beamWidth)
    && (forall s, u :: GraphValid(t, s) && GraphValid(t, u) && |s| == |u| ==> Score(t, u) - Score(t, s) <= l.scoreDelta)
  }

  lemma RoomyStep(t: Trellis, l: Limits, run: seq<Level>, k: nat)
    requires Roomy(t, l) && IsRun(t, l, run) && 0 < k < |run| <= |t.widths|
    ensures run[k].kept == run[k].filtered
  {
    hide Score, Roomy, GraphValid, Ranked, FirstLevel;
    assert StepOk(t, l, run, k);
    LevelEnds(t, k + 1, run[k].sorted);
    FilteredSize(run[k].sorted, l.perTerminal, t.widths[k]);
    RoomyFacts(t, l, k, run[k].filtered);
    UncutStepIff(t, l, run[k].filtered, run[k].kept);
  }

  lemma LevelEnds(t: Trellis, n: nat, paths: seq<seq<nat>>)
    requires 0 < n <= |t.widths| && forall s :: s in paths ==> GraphValid(t, s) && |s| == n
    ensures forall s :: s in paths ==> s != [] && Final(s) < t.widths[n - 1]
  {
  }

  lemma RoomyFacts(t: Trellis, l: Limits, k: nat, filtered: seq<seq<nat>>)
    requires Roomy(t, l) && k < |t.widths| && forall s :: s in filtered ==> GraphValid(t, s) && |s| == k + 1
    ensures l.perTerminal * t.widths[k] <= l.beamWidth
    ensures forall i :: 0 <= i < |filtered| ==> Score(t, filtered[i]) >= Score(t, filtered[0]) - l.scoreDelta
  {
    hide Score, GraphValid;
    forall i | 0 <= i < |filtered| ensures Score(t, filtered[i]) >= Score(t, filtered[0]) - l.scoreDelta {
      assert filtered[i] in filtered && filtered[0] in filtered;
    }
  }

  /** A condition on the input that no search is cut under; an uncut search does not need it. */
  lemma RoomyIsUncut(t: Trellis, l: Limits, run: seq<Level>)
    requires l.Valid() && Roomy(t, l) && IsRun(t, l, run) && |run| <= |t.widths|
    ensures Uncut(run)
  {
    hide Score, GraphValid, StepOk, Ranked;
    assert run[0].kept == run[0].filtered by {
      RoomyStart(t, l, run[0]);
    }
    forall k | 0 < k < |run| ensures run[k].kept == run[k].filtered {
      RoomyStep(t, l, run, k);
    }
  }

  lemma RoomyStart(t: Trellis, l: Limits, level: Level)
    requires l.Valid() && Roomy(t, l) && FirstLevel(t, l, level) && 0 < |t.widths|
    ensures level.kept == level.filtered
  {
    hide Score, GraphValid, PathOrder;
    FirstSize(t, level.sorted);
    Manifold(l.perTerminal, t.widths[0]);
    assert l.perTerminal * t.widths[0] <= l.beamWidth;
  }

  lemma Manifold(k: nat, n: nat)
    requires k >= 1
    ensures n <= k * n
  {
    assert k * n == n + (k - 1) * n;
  }

  lemma FirstSize(t: Trellis, paths: seq<seq<nat>>)
    requires NoDuplicates(paths) && 0 < |t.widths| && forall s :: s in paths ==> GraphValid(t, s) && |s| == 1
    ensures |paths| <= t.widths[0]
  {
    hide Tally;
    LevelEnds(t, 1, paths);
    forall i | 0 <= i < |paths| ensures paths[i] == [Final(paths[i])] {
      assert paths[i] in paths;
    }
    forall c: nat | c < t.widths[0] ensures Tally(paths, c) <= 1 {
      if Tally(paths, c) >= 2 {
        TallyWitness(paths, c);
        assert false;
      }
    }
    SizeBound(paths, 1, t.widths[0]);
    EndingAll(paths, t.widths[0]);
  }
}
