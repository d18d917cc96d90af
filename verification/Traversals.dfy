/** Traversal ordinals of pieces (the second half of `make_pieces`). */
module Traversals {
  import opened Wrappers
  import opened Lexicographic
  import opened Sorting
  import opened RoadBinTypes

  // ----- traversal ordinals -----

  type ArcKey = (string, nat)

  function Key(p: Piece): ArcKey { (p.sequence, p.arc) }

  /** Same sequence and arc in one traversal, and earlier in the list. */
  ghost predicate EarlierOnArc(pieces: seq<Piece>, i: int, j: int) {
    0 <= i < j < |pieces| && pieces[i].sequence == pieces[j].sequence && pieces[i].arc == pieces[j].arc
  }

  /** What the sort guarantees and splitting provides. */
  ghost predicate InTimeOrder(pieces: seq<Piece>) {
    (forall i :: 0 <= i < |pieces| ==> pieces[i].start < pieces[i].end) &&
    (forall i, j :: EarlierOnArc(pieces, i, j) ==> pieces[i].start <= pieces[j].start)
  }

  ghost predicate Separated(pieces: seq<Piece>, gap: int) {
    forall i, j :: EarlierOnArc(pieces, i, j) ==>
      pieces[i].ordinal <= pieces[j].ordinal &&
      (pieces[i].ordinal < pieces[j].ordinal ==> pieces[j].start - pieces[i].end > gap)
  }

  /** Piece `j` follows an earlier piece of its traversal within the gap. */
  ghost predicate Follows(pieces: seq<Piece>, gap: int, j: nat)
    requires j < |pieces|
  {
    exists i :: EarlierOnArc(pieces, i, j) && pieces[i].ordinal == pieces[j].ordinal &&
                pieces[j].start - pieces[i].end <= gap
  }

  /** Piece `j` opens a traversal: ordinals are 0, 1, 2, ... in order of opening. */
  ghost predicate Opens(pieces: seq<Piece>, j: nat)
    requires j < |pieces|
  {
    (forall i :: EarlierOnArc(pieces, i, j) ==> pieces[i].ordinal < pieces[j].ordinal) &&
    (pieces[j].ordinal > 0 ==> exists i :: EarlierOnArc(pieces, i, j) && pieces[i].ordinal == pieces[j].ordinal - 1)
  }

  ghost predicate OrdinalsOk(pieces: seq<Piece>, gap: int) {
    Separated(pieces, gap) && forall j :: 0 <= j < |pieces| ==> Follows(pieces, gap, j) || Opens(pieces, j)
  }

  /** The remembered state of one key: the current ordinal and the latest end, both reached by one piece. */
  ghost predicate Remembers(done: seq<Piece>, key: ArcKey, ordinal: nat, latest: int) {
    (exists w :: 0 <= w < |done| && Key(done[w]) == key && done[w].ordinal == ordinal && done[w].end == latest) &&
    (forall i :: 0 <= i < |done| && Key(done[i]) == key ==> done[i].end <= latest && done[i].ordinal <= ordinal)
  }

  ghost predicate StateOk(done: seq<Piece>, state: map<ArcKey, (nat, int)>) {
    (forall key :: key in state ==> Remembers(done, key, state[key].0, state[key].1)) &&
    (forall i :: 0 <= i < |done| ==> Key(done[i]) in state)
  }

  lemma KeepOrdinals(done: seq<Piece>, next: Piece, gap: int)
    requires OrdinalsOk(done, gap) && Separated(done + [next], gap)
    requires Follows(done + [next], gap, |done|) || Opens(done + [next], |done|)
    ensures OrdinalsOk(done + [next], gap)
  {
    var all := done + [next];
    forall j | 0 <= j < |done| ensures Follows(all, gap, j) || Opens(all, j) {
      forall i ensures EarlierOnArc(all, i, j) <==> EarlierOnArc(done, i, j) {
      }
      if Follows(done, gap, j) {
        var i :| EarlierOnArc(done, i, j) && done[i].ordinal == done[j].ordinal && done[j].start - done[i].end <= gap;
        assert EarlierOnArc(all, i, j);
      } else {
        assert Opens(done, j);
        if done[j].ordinal > 0 {
          var i :| EarlierOnArc(done, i, j) && done[i].ordinal == done[j].ordinal - 1;
          assert EarlierOnArc(all, i, j);
        }
      }
    }
  }

  /** The first piece of a key. */
  lemma AssignFirst(done: seq<Piece>, next: Piece, gap: int)
    requires OrdinalsOk(done, gap) && next.ordinal == 0
    requires forall i :: 0 <= i < |done| ==> Key(done[i]) != Key(next)
    ensures OrdinalsOk(done + [next], gap)
  {
    var all := done + [next];
    forall i, j | EarlierOnArc(all, i, j)
      ensures j < |done| && EarlierOnArc(done, i, j)
    {
    }
    KeepOrdinals(done, next, gap);
  }

  /** A later piece of a key: a new ordinal exactly when it starts more than the gap after the latest end. */
  lemma AssignLater(done: seq<Piece>, next: Piece, gap: int, ordinal: nat, latest: int)
    requires gap >= 0 && OrdinalsOk(done, gap) && InTimeOrder(done + [next])
    requires Remembers(done, Key(next), ordinal, latest)
    requires next.ordinal == if next.start - latest > gap then ordinal + 1 else ordinal
    ensures OrdinalsOk(done + [next], gap)
  {
    var all := done + [next];
    var w :| 0 <= w < |done| && Key(done[w]) == Key(next) && done[w].ordinal == ordinal && done[w].end == latest;
    assert EarlierOnArc(all, w, |done|);
    forall i, j | EarlierOnArc(all, i, j)
      ensures all[i].ordinal <= all[j].ordinal
      ensures all[i].ordinal < all[j].ordinal ==> all[j].start - all[i].end > gap
    {
      if j < |done| {
        assert EarlierOnArc(done, i, j);
      } else if all[i].ordinal < next.ordinal && next.ordinal == ordinal {
        assert i < w ==> EarlierOnArc(done, i, w);
        assert w < i ==> EarlierOnArc(done, w, i);
      }
    }
    KeepOrdinals(done, next, gap);
  }

  lemma RememberNext(done: seq<Piece>, state: map<ArcKey, (nat, int)>, next: Piece, latest: int)
    requires StateOk(done, state)
    requires Key(next) in state ==>
               state[Key(next)].0 <= next.ordinal &&
               latest == (if state[Key(next)].1 < next.end then next.end else state[Key(next)].1)
    requires Key(next) in state && state[Key(next)].0 < next.ordinal ==> latest == next.end
    requires Key(next) !in state ==> latest == next.end
    ensures StateOk(done + [next], state[Key(next) := (next.ordinal, latest)])
  {
    var all := done + [next];
    var state' := state[Key(next) := (next.ordinal, latest)];
    forall key | key in state' ensures Remembers(all, key, state'[key].0, state'[key].1) {
      if key in state {
        var w :| 0 <= w < |done| && Key(done[w]) == key &&
                 done[w].ordinal == state[key].0 && done[w].end == state[key].1;
        assert all[w] == done[w];
      }
      assert all[|done|] == next;
    }
  }

  /** Piece `j` starts so long after the latest end among the earlier pieces of its key that the gap leaves int64. */
  ghost predicate GapOverflows(pieces: seq<Piece>, j: nat)
    requires j < |pieces|
  {
    (exists i :: EarlierOnArc(pieces, i, j)) &&
    forall i :: EarlierOnArc(pieces, i, j) ==> pieces[j].start - pieces[i].end > INT64_MAX
  }

  /** The remembered end decides whether the gap overflows. */
  lemma LatestDecides(pieces: seq<Piece>, done: seq<Piece>, ordinal: nat, latest: int)
    requires |done| < |pieces| && forall i :: 0 <= i < |done| ==> done[i] == pieces[i].(ordinal := done[i].ordinal)
    requires Remembers(done, Key(pieces[|done|]), ordinal, latest)
    ensures GapOverflows(pieces, |done|) <==> pieces[|done|].start - latest > INT64_MAX
  {
    var n := |done|;
    var w :| 0 <= w < n && Key(done[w]) == Key(pieces[n]) && done[w].ordinal == ordinal && done[w].end == latest;
    assert EarlierOnArc(pieces, w, n);
    forall i | EarlierOnArc(pieces, i, n) ensures pieces[i].end <= latest {
      assert Key(done[i]) == Key(pieces[n]);
    }
  }

  lemma FirstNeverOverflows(pieces: seq<Piece>, done: seq<Piece>)
    requires |done| < |pieces| && forall i :: 0 <= i < |done| ==> done[i] == pieces[i].(ordinal := done[i].ordinal)
    requires forall i :: 0 <= i < |done| ==> Key(done[i]) != Key(pieces[|done|])
    ensures !GapOverflows(pieces, |done|)
  {
    forall i | EarlierOnArc(pieces, i, |done|) ensures Key(done[i]) == Key(pieces[|done|]) {
    }
  }

  method AssignOrdinals(pieces: seq<Piece>, gap: int) returns (r: Result<seq<Piece>, Error>)
    requires gap >= 0 && InTimeOrder(pieces)
    ensures r.Ok? ==>
              && |r.value| == |pieces|
              && (forall i :: 0 <= i < |pieces| ==> r.value[i] == pieces[i].(ordinal := r.value[i].ordinal))
              && OrdinalsOk(r.value, gap)
    ensures r.Err? <==> exists j :: 0 <= j < |pieces| && GapOverflows(pieces, j)
  {
    hide OrdinalsOk, StateOk, Remembers, GapOverflows;
    var done: seq<Piece> := [];
    var state: map<ArcKey, (nat, int)> := map[];
    NothingDone(gap);
    for n := 0 to |pieces|
      invariant |done| == n && forall i :: 0 <= i < n ==> done[i] == pieces[i].(ordinal := done[i].ordinal)
      invariant OrdinalsOk(done, gap) && StateOk(done, state)
      invariant forall j :: 0 <= j < n ==> !GapOverflows(pieces, j)
    {
      var piece := pieces[n];
      var key := Key(piece);
      StateFacts(done, state, key);
      if key !in state {
        var next := piece.(ordinal := 0);
        AssignFirst(done, next, gap);
        FirstNeverOverflows(pieces, done);
        RememberNext(done, state, next, piece.end);
        state := state[key := (0, piece.end)];
        done := done + [next];
        continue;
      }
      var (ordinal, previousEnd) := state[key];
      LatestDecides(pieces, done, ordinal, previousEnd);
      if piece.start > previousEnd {
        var difference := CheckedDifference(piece.start, previousEnd);
        if difference.Err? {
          assert GapOverflows(pieces, n);
          return Err(TimeOverflow);
        }
        if difference.value > gap {
          ordinal := ordinal + 1;
        }
      }
      var next := piece.(ordinal := ordinal);
      var latest := if previousEnd < piece.end then piece.end else previousEnd;
      PrefixInOrder(pieces, done, next);
      AssignLater(done, next, gap, state[key].0, previousEnd);
      RememberNext(done, state, next, latest);
      state := state[key := (ordinal, latest)];
      done := done + [next];
    }
    return Ok(done);
  }

  lemma NothingDone(gap: int)
    ensures OrdinalsOk([], gap) && StateOk([], map[])
  {
  }

  lemma StateFacts(done: seq<Piece>, state: map<ArcKey, (nat, int)>, key: ArcKey)
    requires StateOk(done, state)
    ensures key in state ==> Remembers(done, key, state[key].0, state[key].1)
    ensures key !in state ==> forall i :: 0 <= i < |done| ==> Key(done[i]) != key
  {
  }

  lemma PrefixInOrder(pieces: seq<Piece>, done: seq<Piece>, next: Piece)
    requires InTimeOrder(pieces) && |done| < |pieces| && next == pieces[|done|].(ordinal := next.ordinal)
    requires forall i :: 0 <= i < |done| ==> done[i] == pieces[i].(ordinal := done[i].ordinal)
    ensures InTimeOrder(done + [next])
  {
    var all := done + [next];
    forall i, j | EarlierOnArc(all, i, j) ensures all[i].start <= all[j].start {
      assert EarlierOnArc(pieces, i, j);
    }
  }

  // ----- ordinals are gap components -----

  /** Two pieces of one arc and sequence whose times are at most the gap apart. */
  ghost predicate Linked(pieces: seq<Piece>, gap: int, i: int, j: int) {
    && 0 <= i < |pieces| && 0 <= j < |pieces|
    && pieces[i].sequence == pieces[j].sequence && pieces[i].arc == pieces[j].arc
    && pieces[j].start - pieces[i].end <= gap && pieces[i].start - pieces[j].end <= gap
  }

  ghost predicate Chain(pieces: seq<Piece>, gap: int, path: seq<nat>) {
    path != [] && path[0] < |pieces| && path[|path| - 1] < |pieces| &&
    forall a, b :: 0 <= a && a + 1 == b < |path| ==> Linked(pieces, gap, path[a], path[b])
  }

  lemma LinkedSameOrdinal(pieces: seq<Piece>, gap: int, i: nat, j: nat)
    requires OrdinalsOk(pieces, gap) && Linked(pieces, gap, i, j)
    ensures pieces[i].ordinal == pieces[j].ordinal
  {
    assert i < j ==> EarlierOnArc(pieces, i, j);
    assert j < i ==> EarlierOnArc(pieces, j, i);
  }

  /** Pieces connected by links carry one ordinal. */
  lemma {:induction false} ChainSameOrdinal(pieces: seq<Piece>, gap: int, path: seq<nat>)
    requires OrdinalsOk(pieces, gap) && Chain(pieces, gap, path)
    ensures pieces[path[0]].ordinal == pieces[path[|path| - 1]].ordinal
    ensures Key(pieces[path[0]]) == Key(pieces[path[|path| - 1]])
  {
    hide OrdinalsOk;
    if |path| > 1 {
      var n := |path| - 1;
      assert Linked(pieces, gap, path[n - 1], path[n]);
      LinkedSameOrdinal(pieces, gap, path[n - 1], path[n]);
      ChainPrefix(pieces, gap, path);
      ChainSameOrdinal(pieces, gap, path[..n]);
    }
  }

  lemma ChainPrefix(pieces: seq<Piece>, gap: int, path: seq<nat>)
    requires Chain(pieces, gap, path) && |path| > 1
    ensures Chain(pieces, gap, path[..|path| - 1])
  {
    var n := |path| - 1;
    assert Linked(pieces, gap, path[n - 1], path[n]);
    forall a, b | 0 <= a && a + 1 == b < n ensures Linked(pieces, gap, path[..n][a], path[..n][b]) {
      assert Linked(pieces, gap, path[a], path[b]);
    }
  }

  lemma ChainSnoc(pieces: seq<Piece>, gap: int, path: seq<nat>, j: nat)
    requires Chain(pieces, gap, path) && Linked(pieces, gap, path[|path| - 1], j)
    ensures Chain(pieces, gap, path + [j])
  {
    var all := path + [j];
    forall a, b | 0 <= a && a + 1 == b < |all| ensures Linked(pieces, gap, all[a], all[b]) {
      assert b < |path| ==> Linked(pieces, gap, path[a], path[b]);
    }
  }

  lemma ChainReverse(pieces: seq<Piece>, gap: int, path: seq<nat>) returns (back: seq<nat>)
    requires Chain(pieces, gap, path)
    ensures Chain(pieces, gap, back) && back[0] == path[|path| - 1] && back[|back| - 1] == path[0]
  {
    back := seq(|path|, i requires 0 <= i < |path| => path[|path| - 1 - i]);
    forall a, b | 0 <= a && a + 1 == b < |back| ensures Linked(pieces, gap, back[a], back[b]) {
      assert Linked(pieces, gap, path[|path| - 1 - b], path[|path| - 1 - a]);
    }
  }

  /** Pieces of one traversal are connected by links. */
  lemma {:induction false} SameOrdinalConnected(pieces: seq<Piece>, gap: int, i: nat, j: nat) returns (path: seq<nat>)
    requires gap >= 0 && OrdinalsOk(pieces, gap) && InTimeOrder(pieces)
    requires i <= j < |pieces| && Key(pieces[i]) == Key(pieces[j]) && pieces[i].ordinal == pieces[j].ordinal
    ensures Chain(pieces, gap, path) && path[0] == i && path[|path| - 1] == j
    decreases j
  {
    if i == j {
      path := [i];
    } else {
      assert EarlierOnArc(pieces, i, j);
      assert Follows(pieces, gap, j);
      var k :| EarlierOnArc(pieces, k, j) && pieces[k].ordinal == pieces[j].ordinal &&
               pieces[j].start - pieces[k].end <= gap;
      assert Linked(pieces, gap, k, j);
      if i <= k {
        path := SameOrdinalConnected(pieces, gap, i, k);
      } else {
        path := SameOrdinalConnected(pieces, gap, k, i);
        path := ChainReverse(pieces, gap, path);
      }
      ChainSnoc(pieces, gap, path, j);
      path := path + [j];
    }
  }

  /** Traversal ordinals are exactly the gap components of each sequence and arc. */
  lemma OrdinalsAreComponents(pieces: seq<Piece>, gap: int, i: nat, j: nat)
    requires gap >= 0 && OrdinalsOk(pieces, gap) && InTimeOrder(pieces)
    requires i <= j < |pieces| && Key(pieces[i]) == Key(pieces[j])
    ensures pieces[i].ordinal == pieces[j].ordinal <==>
            exists path :: Chain(pieces, gap, path) && path[0] == i && path[|path| - 1] == j
  {
    hide OrdinalsOk;
    hide InTimeOrder;
    if pieces[i].ordinal == pieces[j].ordinal {
      var path := SameOrdinalConnected(pieces, gap, i, j);
    }
    forall path | Chain(pieces, gap, path) && path[0] == i && path[|path| - 1] == j
      ensures pieces[i].ordinal == pieces[j].ordinal
    {
      ChainSameOrdinal(pieces, gap, path);
    }
  }

  // ----- sorting before numbering -----

  /** Order of pieces: sequence, arc, start, end, bin, entry. */
  predicate PieceLess(p: Piece, q: Piece) {
    StringLess(p.sequence, q.sequence) ||
    (p.sequence == q.sequence && (p.arc < q.arc || (p.arc == q.arc && TimeLess(p, q))))
  }

  predicate TimeLess(p: Piece, q: Piece) {
    p.start < q.start ||
    (p.start == q.start && (p.end < q.end ||
                            (p.end == q.end && (p.bin < q.bin || (p.bin == q.bin && p.entry < q.entry)))))
  }

  lemma PieceLessStrictWeak()
    ensures StrictWeak(PieceLess)
  {
    StringLessTotal();
    hide StringLess;
  }

  /** Sort the pieces and number their traversals. */
  method NumberTraversals(pieces: seq<Piece>, gap: int) returns (r: Result<seq<Piece>, Error>)
    requires gap >= 0 && forall p :: p in pieces ==> p.start < p.end
    ensures r.Ok? ==> InTimeOrder(r.value) && OrdinalsOk(r.value, gap) && |r.value| == |pieces|
    ensures r.Ok? ==> exists sorted: seq<Piece> ::
              multiset(sorted) == multiset(pieces) && Sorted(PieceLess, sorted) && |sorted| == |r.value| &&
              forall i :: 0 <= i < |sorted| ==> r.value[i] == sorted[i].(ordinal := r.value[i].ordinal)
    ensures r.Err? <==> exists q :: q in pieces && CutOff(pieces, q)
  {
    hide OrdinalsOk, InTimeOrder, GapOverflows, Sorted, PieceLess;
    PieceLessStrictWeak();
    var sorted := Sort(PieceLess, pieces);
    SortedInTimeOrder(sorted);
    OverflowIsCutOff(sorted, pieces);
    r := AssignOrdinals(sorted, gap);
    if r.Ok? {
      RenumberedInOrder(sorted, r.value);
    }
  }

  ghost predicate StartsBefore(p: Piece, q: Piece) {
    p.sequence == q.sequence && p.arc == q.arc && p.start < q.start
  }

  /** All travel on the arc of `q` that started earlier, and there is some, ended too long before it for int64. */
  ghost predicate CutOff(pieces: seq<Piece>, q: Piece) {
    (exists p :: p in pieces && StartsBefore(p, q)) &&
    forall p :: p in pieces && StartsBefore(p, q) ==> q.start - p.end > INT64_MAX
  }

  lemma OverflowIsCutOff(sorted: seq<Piece>, pieces: seq<Piece>)
    requires InTimeOrder(sorted) && forall p :: p in sorted <==> p in pieces
    ensures (exists j :: 0 <= j < |sorted| && GapOverflows(sorted, j)) <==> exists q :: q in pieces && CutOff(pieces, q)
  {
    hide GapOverflows, CutOff;
    if j :| 0 <= j < |sorted| && GapOverflows(sorted, j) {
      OverflowCutsOff(sorted, pieces, j);
      assert sorted[j] in pieces;
    }
    if q :| q in pieces && CutOff(pieces, q) {
      var j := CutOffOverflows(sorted, pieces, q);
    }
  }

  lemma OverflowCutsOff(sorted: seq<Piece>, pieces: seq<Piece>, j: nat)
    requires InTimeOrder(sorted) && forall p :: p in sorted <==> p in pieces
    requires j < |sorted| && GapOverflows(sorted, j)
    ensures CutOff(pieces, sorted[j])
  {
    var q := sorted[j];
    var w :| EarlierOnArc(sorted, w, j);
    assert sorted[w] in pieces && sorted[w].start < sorted[w].end < q.start;
    forall p | p in pieces && Key(p) == Key(q) && p.start < q.start ensures q.start - p.end > INT64_MAX {
      var i :| 0 <= i < |sorted| && sorted[i] == p;
      assert j < i ==> EarlierOnArc(sorted, j, i);
      assert EarlierOnArc(sorted, i, j);
    }
  }

  /** The first piece of the arc that starts when `q` does overflows. */
  lemma CutOffOverflows(sorted: seq<Piece>, pieces: seq<Piece>, q: Piece) returns (j: nat)
    requires InTimeOrder(sorted) && (forall p :: p in sorted <==> p in pieces) && q in pieces && CutOff(pieces, q)
    ensures j < |sorted| && GapOverflows(sorted, j)
  {
    j := 0;
    while !(Key(sorted[j]) == Key(q) && sorted[j].start == q.start)
      invariant j < |sorted| && forall i :: 0 <= i < j ==> !(Key(sorted[i]) == Key(q) && sorted[i].start == q.start)
      decreases |sorted| - j
    {
      var k :| 0 <= k < |sorted| && sorted[k] == q;
      j := j + 1;
    }
    var p :| p in pieces && StartsBefore(p, q);
    var w :| 0 <= w < |sorted| && sorted[w] == p;
    assert j < w ==> EarlierOnArc(sorted, j, w);
    assert EarlierOnArc(sorted, w, j);
    forall i | EarlierOnArc(sorted, i, j) ensures sorted[j].start - sorted[i].end > INT64_MAX {
      assert sorted[i] in pieces && sorted[i].start <= sorted[j].start;
    }
  }

  lemma SortedInTimeOrder(sorted: seq<Piece>)
    requires Sorted(PieceLess, sorted) && forall p :: p in sorted ==> p.start < p.end
    ensures InTimeOrder(sorted)
  {
    forall i | 0 <= i < |sorted| ensures sorted[i].start < sorted[i].end {
      assert sorted[i] in sorted;
    }
    forall i, j | EarlierOnArc(sorted, i, j) ensures sorted[i].start <= sorted[j].start {
      assert !PieceLess(sorted[j], sorted[i]);
    }
  }

  lemma RenumberedInOrder(sorted: seq<Piece>, numbered: seq<Piece>)
    requires InTimeOrder(sorted) && |numbered| == |sorted|
    requires forall i :: 0 <= i < |sorted| ==> numbered[i] == sorted[i].(ordinal := numbered[i].ordinal)
    ensures InTimeOrder(numbered)
  {
    forall i, j | EarlierOnArc(numbered, i, j) ensures numbered[i].start <= numbered[j].start {
      assert EarlierOnArc(sorted, i, j);
    }
  }
}
