/** What a decoded path means: candidate sequences through a trellis and their rounded running score. */
module TrellisPaths {
  import opened Wrappers
  import opened Rounding
  import opened Lexicographic

  /** `step(i, a, b)` scores moving from candidate `a` of observation `i - 1` to candidate `b` of
      observation `i`; None when the move is impossible. */
  datatype Trellis = Trellis(widths: seq<nat>, id: (nat, nat) -> string, emission: (nat, nat) -> real,
                             step: (nat, nat, nat) -> Option<real>, places: nat)

  /** Candidate ids are unique within an observation. */
  ghost predicate UniqueIds(t: Trellis) {
    forall i: nat, c: nat, d: nat :: i < |t.widths| && c < d < t.widths[i] ==> t.id(i, c) != t.id(i, d)
  }

  ghost predicate Chooses(t: Trellis, s: seq<nat>) {
    |s| <= |t.widths| && forall i :: 0 <= i < |s| ==> s[i] < t.widths[i]
  }

  ghost predicate StepPossible(t: Trellis, s: seq<nat>, i: nat)
    requires 0 < i < |s|
  {
    t.step(i, s[i - 1], s[i]).Some?
  }

  /** One candidate per observation, every transition possible. */
  ghost predicate GraphValid(t: Trellis, s: seq<nat>) {
    s != [] && Chooses(t, s) && forall i :: 0 < i < |s| ==> StepPossible(t, s, i)
  }

  function Final(s: seq<nat>): nat
    requires s != []
  {
    s[|s| - 1]
  }

  function Front(s: seq<nat>): seq<nat>
    requires s != []
  {
    s[..|s| - 1]
  }

  lemma FrontValid(t: Trellis, s: seq<nat>)
    requires GraphValid(t, s) && |s| >= 2
    ensures GraphValid(t, Front(s)) && s == Front(s) + [Final(s)]
    ensures t.step(|s| - 1, Final(Front(s)), Final(s)).Some? && Final(s) < t.widths[|s| - 1]
  {
    assert StepPossible(t, s, |s| - 1);
    forall i | 0 < i < |Front(s)| ensures StepPossible(t, Front(s), i) {
      assert StepPossible(t, s, i);
    }
  }

  lemma SnocValid(t: Trellis, s: seq<nat>, c: nat)
    requires GraphValid(t, s) && |s| < |t.widths| && c < t.widths[|s|]
    ensures GraphValid(t, s + [c]) <==> t.step(|s|, Final(s), c).Some?
    ensures Front(s + [c]) == s
  {
    var u := s + [c];
    assert StepPossible(t, u, |s|) <==> t.step(|s|, Final(s), c).Some?;
    forall i | 0 < i < |s| ensures StepPossible(t, u, i) {
      assert StepPossible(t, s, i);
    }
  }

  /** The running score: rounded after every observation. */
  ghost function Score(t: Trellis, s: seq<nat>): real
    requires GraphValid(t, s)
    decreases |s|
  {
    var emission := t.emission(|s| - 1, Final(s));
    if |s| == 1 then
      Round(emission, t.places)
    else
      FrontValid(t, s);
      Round(Score(t, Front(s)) + t.step(|s| - 1, Final(Front(s)), Final(s)).value + emission, t.places)
  }

  lemma SnocScore(t: Trellis, s: seq<nat>, c: nat)
    requires GraphValid(t, s) && |s| < |t.widths| && c < t.widths[|s|] && t.step(|s|, Final(s), c).Some?
    ensures GraphValid(t, s + [c])
    ensures Score(t, s + [c]) == Round(Score(t, s) + t.step(|s|, Final(s), c).value + t.emission(|s|, c), t.places)
  {
    SnocValid(t, s, c);
  }

  /** A better-scored prefix with the same last candidate stays better after the same next candidate. */
  lemma SnocKeepsScore(t: Trellis, s: seq<nat>, u: seq<nat>, c: nat)
    requires GraphValid(t, s) && GraphValid(t, u) && |s| == |u| < |t.widths| && Final(s) == Final(u)
    requires Score(t, s) <= Score(t, u)
    requires c < t.widths[|s|] && t.step(|s|, Final(s), c).Some?
    ensures GraphValid(t, s + [c]) && GraphValid(t, u + [c]) && Score(t, s + [c]) <= Score(t, u + [c])
  {
    hide Round;
    hide Score;
    SnocScore(t, s, c);
    SnocScore(t, u, c);
    var gain := t.step(|s|, Final(s), c).value;
    RoundMonotone(Score(t, s) + gain + t.emission(|s|, c), Score(t, u) + gain + t.emission(|s|, c), t.places);
  }

  /** Candidate ids along a sequence: the key of the exact tie-break. */
  ghost function Ids(t: Trellis, s: seq<nat>): (ids: seq<string>)
    ensures |ids| == |s| && forall i :: 0 <= i < |s| ==> ids[i] == t.id(i, s[i])
  {
    seq(|s|, i requires 0 <= i < |s| => t.id(i, s[i]))
  }

  ghost predicate Before(t: Trellis, s: seq<nat>, u: seq<nat>) {
    Less(StringLess, Ids(t, s), Ids(t, u))
  }

  /** Sequences of one length with equal ids are equal. */
  lemma IdsInjective(t: Trellis, s: seq<nat>, u: seq<nat>)
    requires UniqueIds(t) && Chooses(t, s) && Chooses(t, u) && Ids(t, s) == Ids(t, u)
    ensures s == u
  {
    assert |s| == |u|;
    forall i: nat | i < |s| ensures s[i] == u[i] {
      assert Ids(t, s)[i] == Ids(t, u)[i];
      SameIdSameCandidate(t, i, s[i], u[i]);
    }
  }

  lemma SameIdSameCandidate(t: Trellis, i: nat, c: nat, d: nat)
    requires UniqueIds(t) && i < |t.widths| && c < t.widths[i] && d < t.widths[i] && t.id(i, c) == t.id(i, d)
    ensures c == d
  {
  }

  lemma BeforeTotal(t: Trellis, s: seq<nat>, u: seq<nat>)
    requires UniqueIds(t) && Chooses(t, s) && Chooses(t, u)
    ensures Before(t, s, u) || Before(t, u, s) || s == u
    ensures !Before(t, s, s)
    ensures !(Before(t, s, u) && Before(t, u, s))
  {
    StringLessTotal();
    LessTotal(StringLess, Ids(t, s), Ids(t, u));
    LessIrreflexive(StringLess, Ids(t, s));
    if Ids(t, s) == Ids(t, u) {
      IdsInjective(t, s, u);
    }
    if Before(t, s, u) && Before(t, u, s) {
      LessTransitive(StringLess, Ids(t, s), Ids(t, u), Ids(t, s));
    }
  }

  /** Comparing sequences of one length by their fronts first and their final ids second. */
  lemma BeforeSnoc(t: Trellis, s: seq<nat>, u: seq<nat>)
    requires UniqueIds(t) && Chooses(t, s) && Chooses(t, u) && |s| == |u| > 0
    ensures Before(t, s, u) <==>
              Before(t, Front(s), Front(u)) ||
              (Front(s) == Front(u) && StringLess(t.id(|s| - 1, Final(s)), t.id(|u| - 1, Final(u))))
  {
    StringLessTotal();
    assert Ids(t, s) == Ids(t, Front(s)) + [t.id(|s| - 1, Final(s))];
    assert Ids(t, u) == Ids(t, Front(u)) + [t.id(|u| - 1, Final(u))];
    LessSnoc(StringLess, Ids(t, Front(s)), t.id(|s| - 1, Final(s)), Ids(t, Front(u)), t.id(|u| - 1, Final(u)));
    if Ids(t, Front(s)) == Ids(t, Front(u)) {
      IdsInjective(t, Front(s), Front(u));
    }
  }

  // ----- the order of sequences -----

  /** The order of running scores: higher score first, then smaller ids. */
  ghost predicate Precedes(t: Trellis, s: seq<nat>, u: seq<nat>)
    requires GraphValid(t, s) && GraphValid(t, u)
  {
    Score(t, s) > Score(t, u) || (Score(t, s) == Score(t, u) && Before(t, s, u))
  }

  lemma PrecedesTotal(t: Trellis, s: seq<nat>, u: seq<nat>)
    requires UniqueIds(t) && GraphValid(t, s) && GraphValid(t, u)
    ensures Precedes(t, s, u) || Precedes(t, u, s) || s == u
    ensures !Precedes(t, s, s)
    ensures !(Precedes(t, s, u) && Precedes(t, u, s))
  {
    hide Score, Before;
    BeforeTotal(t, s, u);
  }

  lemma PrecedesTransitive(t: Trellis, s: seq<nat>, u: seq<nat>, v: seq<nat>)
    requires GraphValid(t, s) && GraphValid(t, u) && GraphValid(t, v)
    requires Precedes(t, s, u) && Precedes(t, u, v)
    ensures Precedes(t, s, v)
  {
    hide Score, Ids;
    StringLessTotal();
    if Before(t, s, u) && Before(t, u, v) {
      LessTransitive(StringLess, Ids(t, s), Ids(t, u), Ids(t, v));
    }
  }

  // ----- scores on the decimal grid -----

  /** Every emission and every possible step has no more decimal places than the running score. */
  ghost predicate GridScores(t: Trellis) {
    && (forall i: nat, c: nat :: i < |t.widths| && c < t.widths[i] ==> OnGrid(t.emission(i, c), t.places))
    && (forall i: nat, a: nat, b: nat ::
          0 < i < |t.widths| && a < t.widths[i - 1] && b < t.widths[i] && t.step(i, a, b).Some? ==>
          OnGrid(t.step(i, a, b).value, t.places))
  }

  lemma ScoreOnGrid(t: Trellis, s: seq<nat>)
    requires GraphValid(t, s)
    ensures OnGrid(Score(t, s), t.places)
  {
    hide Round, OnGrid;
    var emission := t.emission(|s| - 1, Final(s));
    if |s| == 1 {
      RoundOntoGrid(emission, t.places);
    } else {
      FrontValid(t, s);
      RoundOntoGrid(Score(t, Front(s)) + t.step(|s| - 1, Final(Front(s)), Final(s)).value + emission, t.places);
    }
  }

  /** On the grid the running score is the plain sum. */
  lemma SnocAddsScore(t: Trellis, s: seq<nat>, c: nat)
    requires GridScores(t) && GraphValid(t, s)
    requires |s| < |t.widths| && c < t.widths[|s|] && t.step(|s|, Final(s), c).Some?
    ensures GraphValid(t, s + [c])
    ensures Score(t, s + [c]) == Score(t, s) + t.step(|s|, Final(s), c).value + t.emission(|s|, c)
  {
    hide Round, OnGrid, Score;
    SnocScore(t, s, c);
    ScoreOnGrid(t, s);
    assert s[|s| - 1] < t.widths[|s| - 1];
    GridSum(Score(t, s), t.step(|s|, Final(s), c).value, t.places);
    GridSum(Score(t, s) + t.step(|s|, Final(s), c).value, t.emission(|s|, c), t.places);
    RoundFixesGrid(Score(t, s) + t.step(|s|, Final(s), c).value + t.emission(|s|, c), t.places);
  }

  /** Emissions of the first `n` candidates and the steps between them. */
  ghost function PlainSum(t: Trellis, s: seq<nat>, n: nat): real
    requires GraphValid(t, s) && n <= |s|
  {
    if n == 0 then 0.0
    else if n == 1 then t.emission(0, s[0])
    else
      assert StepPossible(t, s, n - 1);
      PlainSum(t, s, n - 1) + t.step(n - 1, s[n - 2], s[n - 1]).value + t.emission(n - 1, s[n - 1])
  }

  lemma {:induction false} PlainSumFront(t: Trellis, s: seq<nat>, n: nat)
    requires GraphValid(t, s) && n <= |s| - 1 && GraphValid(t, Front(s))
    ensures PlainSum(t, Front(s), n) == PlainSum(t, s, n)
  {
    if n > 1 {
      assert StepPossible(t, s, n - 1) && StepPossible(t, Front(s), n - 1);
      PlainSumFront(t, s, n - 1);
    }
  }

  /** On the grid a sequence scores the sum of its emissions and steps: no rounding is left. */
  lemma {:induction false} ScoreIsSum(t: Trellis, s: seq<nat>)
    requires GridScores(t) && GraphValid(t, s)
    ensures Score(t, s) == PlainSum(t, s, |s|)
    decreases |s|
  {
    hide OnGrid, Round;
    if |s| == 1 {
      RoundFixesGrid(t.emission(0, s[0]), t.places);
    } else {
      hide Score;
      FrontValid(t, s);
      SnocAddsScore(t, Front(s), Final(s));
      ScoreIsSum(t, Front(s));
      PlainSumFront(t, s, |s| - 1);
    }
  }

  lemma BeforeSame(t: Trellis, s: seq<nat>, u: seq<nat>, c: nat)
    requires UniqueIds(t) && Chooses(t, s + [c]) && Chooses(t, u + [c]) && |s| == |u| && Before(t, u, s)
    ensures Before(t, u + [c], s + [c])
  {
    hide Before, UniqueIds;
    assert Front(s + [c]) == s && Front(u + [c]) == u;
    BeforeSnoc(t, u + [c], s + [c]);
  }

  /** On the grid even the order among equal scores survives a common step. */
  lemma SnocKeepsOrder(t: Trellis, s: seq<nat>, u: seq<nat>, c: nat)
    requires UniqueIds(t) && GridScores(t)
    requires GraphValid(t, s) && GraphValid(t, u) && |s| == |u| < |t.widths| && Final(s) == Final(u)
    requires Precedes(t, u, s)
    requires c < t.widths[|s|] && t.step(|s|, Final(s), c).Some?
    ensures GraphValid(t, s + [c]) && GraphValid(t, u + [c]) && Precedes(t, u + [c], s + [c])
  {
    hide Score, UniqueIds, GridScores, Before;
    SnocAddsScore(t, s, c);
    SnocAddsScore(t, u, c);
    if Before(t, u, s) {
      BeforeSame(t, s, u, c);
    }
  }

  // ----- what a set of retained sequences guarantees about all sequences -----

  /** Whether the exact order may be asked for, and not only the order of scores. */
  ghost predicate Askable(t: Trellis, exact: bool) {
    UniqueIds(t) && (exact ==> GridScores(t))
  }

  /** `u` ends on the same candidate as `s` and scores no less; for `exact` it is `s` or precedes it. */
  ghost predicate Dominates(t: Trellis, exact: bool, u: seq<nat>, s: seq<nat>)
    requires GraphValid(t, s)
  {
    && GraphValid(t, u) && |u| == |s| && Final(u) == Final(s)
    && Score(t, u) >= Score(t, s)
    && (exact ==> u == s || Precedes(t, u, s))
  }

  lemma DominatesTransitive(t: Trellis, exact: bool, v: seq<nat>, u: seq<nat>, s: seq<nat>)
    requires GraphValid(t, s) && Dominates(t, exact, u, s) && Dominates(t, exact, v, u)
    ensures Dominates(t, exact, v, s)
  {
    hide Score, Precedes;
    if exact && u != s && v != u {
      PrecedesTransitive(t, v, u, s);
    }
  }

  /** Domination survives appending one candidate. */
  lemma DominatesSnoc(t: Trellis, exact: bool, u: seq<nat>, s: seq<nat>)
    requires Askable(t, exact) && GraphValid(t, s) && |s| >= 2
    requires GraphValid(t, Front(s)) && Dominates(t, exact, u, Front(s))
    ensures Dominates(t, exact, u + [Final(s)], s) && Front(u + [Final(s)]) == u
  {
    hide Score, UniqueIds, GridScores, Precedes;
    FrontValid(t, s);
    SnocKeepsScore(t, Front(s), u, Final(s));
    if exact && u != Front(s) {
      SnocKeepsOrder(t, Front(s), u, Final(s));
    }
  }

  /** Some retained sequence dominates `s`. */
  ghost predicate Dominated(t: Trellis, exact: bool, kept: seq<seq<nat>>, s: seq<nat>)
    requires GraphValid(t, s)
  {
    exists u :: u in kept && Dominates(t, exact, u, s)
  }

  /** `s` is retained, or two different retained sequences dominate it. */
  ghost predicate DoublyDominated(t: Trellis, exact: bool, kept: seq<seq<nat>>, s: seq<nat>)
    requires GraphValid(t, s)
  {
    s in kept ||
    exists u, v :: u in kept && v in kept && u != v && Dominates(t, exact, u, s) && Dominates(t, exact, v, s)
  }

  ghost predicate CoversBest(t: Trellis, exact: bool, n: nat, kept: seq<seq<nat>>) {
    forall s {:trigger Dominated(t, exact, kept, s)} :: GraphValid(t, s) && |s| == n ==> Dominated(t, exact, kept, s)
  }

  ghost predicate CoversTwo(t: Trellis, exact: bool, n: nat, kept: seq<seq<nat>>) {
    forall s {:trigger DoublyDominated(t, exact, kept, s)} :: GraphValid(t, s) && |s| == n ==>
      DoublyDominated(t, exact, kept, s)
  }

  ghost predicate CoversAll(t: Trellis, n: nat, kept: seq<seq<nat>>) {
    forall s :: GraphValid(t, s) && |s| == n ==> s in kept
  }

  lemma AllCoverMore(t: Trellis, exact: bool, n: nat, kept: seq<seq<nat>>)
    requires CoversAll(t, n, kept)
    ensures CoversBest(t, exact, n, kept) && CoversTwo(t, exact, n, kept)
  {
    hide Score, Precedes;
    forall s | GraphValid(t, s) && |s| == n ensures Dominated(t, exact, kept, s) {
      assert Dominates(t, exact, s, s);
    }
  }

  /** Exactly the possible one-candidate extensions of the retained sequences. */
  ghost predicate Expansion(t: Trellis, n: nat, kept: seq<seq<nat>>, grown: seq<seq<nat>>) {
    forall s :: s in grown <==> GraphValid(t, s) && |s| == n + 1 && Front(s) in kept
  }

  lemma ExpansionCoversBest(t: Trellis, exact: bool, n: nat, kept: seq<seq<nat>>, grown: seq<seq<nat>>)
    requires Askable(t, exact) && n > 0 && CoversBest(t, exact, n, kept) && Expansion(t, n, kept, grown)
    ensures CoversBest(t, exact, n + 1, grown)
  {
    hide Score, GraphValid, Askable;
    forall s | GraphValid(t, s) && |s| == n + 1 ensures Dominated(t, exact, grown, s) {
      FrontValid(t, s);
      assert Dominated(t, exact, kept, Front(s));
      var u :| u in kept && Dominates(t, exact, u, Front(s));
      DominatesSnoc(t, exact, u, s);
    }
  }

  lemma ExpansionCoversTwo(t: Trellis, exact: bool, n: nat, kept: seq<seq<nat>>, grown: seq<seq<nat>>)
    requires Askable(t, exact) && n > 0 && CoversTwo(t, exact, n, kept) && Expansion(t, n, kept, grown)
    ensures CoversTwo(t, exact, n + 1, grown)
  {
    hide Score, GraphValid, Askable;
    forall s | GraphValid(t, s) && |s| == n + 1 ensures DoublyDominated(t, exact, grown, s) {
      FrontValid(t, s);
      assert DoublyDominated(t, exact, kept, Front(s));
      if Front(s) !in kept {
        var u, v :| u in kept && v in kept && u != v &&
                    Dominates(t, exact, u, Front(s)) && Dominates(t, exact, v, Front(s));
        DominatesSnoc(t, exact, u, s);
        DominatesSnoc(t, exact, v, s);
      }
    }
  }

  lemma ExpansionCoversAll(t: Trellis, n: nat, kept: seq<seq<nat>>, grown: seq<seq<nat>>)
    requires n > 0 && CoversAll(t, n, kept) && Expansion(t, n, kept, grown)
    ensures CoversAll(t, n + 1, grown)
  {
    forall s | GraphValid(t, s) && |s| == n + 1 ensures s in grown {
      FrontValid(t, s);
    }
  }

  /** Whatever is dropped keeps a dominating sequence. */
  lemma PruningCoversBest(t: Trellis, exact: bool, n: nat, grown: seq<seq<nat>>, kept: seq<seq<nat>>)
    requires CoversBest(t, exact, n, grown)
    requires forall s :: s in grown ==> GraphValid(t, s) && Dominated(t, exact, kept, s)
    ensures CoversBest(t, exact, n, kept)
  {
    hide Dominates, GraphValid;
    forall s | GraphValid(t, s) && |s| == n ensures Dominated(t, exact, kept, s) {
      assert Dominated(t, exact, grown, s);
      var u :| u in grown && Dominates(t, exact, u, s);
      var v :| v in kept && Dominates(t, exact, v, u);
      DominatesTransitive(t, exact, v, u, s);
    }
  }

  /** Two retained sequences that dominate `u` dominate whatever `u` dominates. */
  lemma DoublyThrough(t: Trellis, exact: bool, kept: seq<seq<nat>>, u: seq<nat>, s: seq<nat>)
    requires GraphValid(t, s) && Dominates(t, exact, u, s) && GraphValid(t, u)
    requires DoublyDominated(t, exact, kept, u) && u !in kept
    ensures DoublyDominated(t, exact, kept, s)
  {
    hide Dominates, GraphValid;
    var a, b :| a in kept && b in kept && a != b && Dominates(t, exact, a, u) && Dominates(t, exact, b, u);
    DominatesTransitive(t, exact, a, u, s);
    DominatesTransitive(t, exact, b, u, s);
  }

  lemma PruningCoversTwo(t: Trellis, exact: bool, n: nat, grown: seq<seq<nat>>, kept: seq<seq<nat>>)
    requires CoversTwo(t, exact, n, grown)
    requires forall s :: s in grown ==> GraphValid(t, s) && DoublyDominated(t, exact, kept, s)
    ensures CoversTwo(t, exact, n, kept)
  {
    hide Dominates, GraphValid;
    forall s | GraphValid(t, s) && |s| == n ensures DoublyDominated(t, exact, kept, s) {
      assert DoublyDominated(t, exact, grown, s);
      if s !in grown {
        var u, v :| u in grown && v in grown && u != v && Dominates(t, exact, u, s) && Dominates(t, exact, v, s);
        if u !in kept {
          DoublyThrough(t, exact, kept, u, s);
        } else if v !in kept {
          DoublyThrough(t, exact, kept, v, s);
        }
      }
    }
  }
}
