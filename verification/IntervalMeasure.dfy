/** Duration of a union of time intervals (`merged_duration`), and what pieces share with an interval. */
module IntervalMeasure {
  import opened FiniteSets
  import opened Wrappers
  import opened Sorting
  import opened RoadBinTypes

  datatype TimeInterval = TimeInterval(start: int, end: int)

  predicate Contains(v: TimeInterval, t: int) { v.start <= t < v.end }

  /** The nanoseconds in at least one of the intervals. */
  ghost function Covered(intervals: seq<TimeInterval>): set<int> {
    if intervals == [] then {}
    else
      var last := intervals[|intervals| - 1];
      Covered(intervals[..|intervals| - 1]) + Span(last.start, last.end)
  }

  lemma {:induction false} CoveredMember(intervals: seq<TimeInterval>, t: int)
    ensures t in Covered(intervals) <==> exists v :: v in intervals && Contains(v, t)
  {
    if intervals != [] {
      var front, last := intervals[..|intervals| - 1], intervals[|intervals| - 1];
      CoveredMember(front, t);
      assert intervals == front + [last];
      assert forall v :: v in intervals <==> v in front || v == last;
      assert t in Span(last.start, last.end) <==> Contains(last, t);
    }
  }

  lemma CoveredSnoc(done: seq<TimeInterval>, next: TimeInterval)
    ensures Covered(done + [next]) == Covered(done) + Span(next.start, next.end)
  {
    assert (done + [next])[..|done|] == done;
  }

  predicate StartsEarlier(x: TimeInterval, y: TimeInterval) {
    x.start < y.start || (x.start == y.start && x.end < y.end)
  }

  lemma StartsEarlierStrictWeak()
    ensures StrictWeak(StartsEarlier)
  {
  }

  /** Coverage depends only on which intervals occur, not on their order or repetition. */
  lemma CoveredByMembers(a: seq<TimeInterval>, b: seq<TimeInterval>)
    requires forall x :: x in a ==> x in b
    ensures Covered(a) <= Covered(b)
  {
    forall t | t in Covered(a) ensures t in Covered(b) {
      CoveredMember(a, t);
      CoveredMember(b, t);
    }
  }

  ghost predicate NonEmptyIntervals(intervals: seq<TimeInterval>) {
    forall v :: v in intervals ==> v.start < v.end
  }

  /** Sweep state: everything up to the current run is counted in `duration`. */
  ghost predicate Swept(done: seq<TimeInterval>, duration: int, start: int, end: int) {
    start < end && duration >= 0 && |Covered(done)| == duration + (end - start) &&
    (forall t :: start <= t < end ==> t in Covered(done)) &&
    (forall t :: t in Covered(done) ==> t < end)
  }

  lemma SweepExtend(done: seq<TimeInterval>, next: TimeInterval, duration: int, start: int, end: int)
    requires Swept(done, duration, start, end) && start <= next.start <= end && next.start < next.end
    ensures Swept(done + [next], duration, start, if end < next.end then next.end else end)
  {
    hide Covered;
    CoveredSnoc(done, next);
    assert Covered(done + [next]) == Covered(done) + Span(end, next.end);
    assert Covered(done) !! Span(end, next.end);
  }

  lemma SweepRestart(done: seq<TimeInterval>, next: TimeInterval, duration: int, start: int, end: int)
    requires Swept(done, duration, start, end) && end < next.start < next.end
    ensures Swept(done + [next], duration + (end - start), next.start, next.end)
  {
    hide Covered;
    CoveredSnoc(done, next);
    assert Covered(done) !! Span(next.start, next.end);
  }

  lemma SweepStart(first: TimeInterval)
    requires first.start < first.end
    ensures Swept([first], 0, first.start, first.end)
  {
    CoveredSnoc([], first);
    assert [] + [first] == [first];
  }

  method MergedDuration(intervals: seq<TimeInterval>) returns (r: Result<int, Error>)
    requires NonEmptyIntervals(intervals)
    ensures r == if |Covered(intervals)| <= INT64_MAX then Ok(|Covered(intervals)|) else Err(TimeOverflow)
  {
    hide Covered;
    hide Swept;
    if intervals == [] {
      CoveredNothing();
      return Ok(0);
    }
    StartsEarlierStrictWeak();
    var sorted := Sort(StartsEarlier, intervals);
    SameCovered(sorted, intervals);
    var start, end, duration := sorted[0].start, sorted[0].end, 0;
    SweepStart(sorted[0]);
    assert sorted[..1] == [sorted[0]];
    for i := 1 to |sorted|
      invariant Swept(sorted[..i], duration, start, end)
      invariant start <= sorted[i - 1].start && duration <= INT64_MAX
    {
      assert sorted[i] in sorted && !StartsEarlier(sorted[i], sorted[i - 1]);
      assert sorted[..i + 1] == sorted[..i] + [sorted[i]];
      CoveredGrows(sorted, i);
      SweptFacts(sorted[..i], duration, start, end);
      if sorted[i].start <= end {
        SweepExtend(sorted[..i], sorted[i], duration, start, end);
        end := if end < sorted[i].end then sorted[i].end else end;
        continue;
      }
      var run := CheckedDifference(end, start);
      if run.Err? {
        return Err(TimeOverflow);
      }
      var total := CheckedAdd(duration, run.value);
      if total.Err? {
        return Err(TimeOverflow);
      }
      SweepRestart(sorted[..i], sorted[i], duration, start, end);
      duration, start, end := total.value, sorted[i].start, sorted[i].end;
    }
    assert sorted[..|sorted|] == sorted;
    SweptFacts(sorted, duration, start, end);
    var run := CheckedDifference(end, start);
    if run.Err? {
      return Err(TimeOverflow);
    }
    return CheckedAdd(duration, run.value);
  }

  lemma SweptFacts(done: seq<TimeInterval>, duration: int, start: int, end: int)
    requires Swept(done, duration, start, end)
    ensures start < end && duration >= 0 && |Covered(done)| == duration + (end - start)
  {
  }

  lemma CoveredNothing()
    ensures Covered([]) == {}
  {
  }

  lemma SameCovered(sorted: seq<TimeInterval>, intervals: seq<TimeInterval>)
    requires forall v :: v in sorted <==> v in intervals
    ensures Covered(sorted) == Covered(intervals)
  {
    CoveredByMembers(sorted, intervals);
    CoveredByMembers(intervals, sorted);
  }

  lemma CoveredGrows(intervals: seq<TimeInterval>, i: nat)
    requires i <= |intervals|
    ensures |Covered(intervals[..i])| <= |Covered(intervals)|
  {
    forall x | x in intervals[..i] ensures x in intervals {
    }
    CoveredByMembers(intervals[..i], intervals);
    SubsetSize(Covered(intervals[..i]), Covered(intervals));
  }

  // ----- pieces and an interval -----

  function Overlap(p: Piece, start: int, end: int): Option<TimeInterval> {
    var from := if p.start < start then start else p.start;
    var to := if end < p.end then end else p.end;
    if to <= from then None else Some(TimeInterval(from, to))
  }

  ghost predicate InPieces(pieces: seq<Piece>, t: int) {
    exists p :: p in pieces && p.start <= t < p.end
  }

  /** The nanoseconds of an interval that some piece contains. */
  ghost function SharedTime(pieces: seq<Piece>, start: int, end: int): set<int> {
    set t | t in Span(start, end) && InPieces(pieces, t)
  }

  lemma SharedSnoc(pieces: seq<Piece>, p: Piece, start: int, end: int)
    ensures SharedTime(pieces + [p], start, end) ==
            SharedTime(pieces, start, end) +
            match Overlap(p, start, end) case None => {} case Some(v) => Span(v.start, v.end)
  {
    assert forall q :: q in pieces + [p] <==> q in pieces || q == p;
  }

  /** The overlaps of the pieces with an interval cover exactly what they share. */
  method Overlaps(pieces: seq<Piece>, start: int, end: int) returns (r: seq<TimeInterval>)
    ensures NonEmptyIntervals(r) && Covered(r) == SharedTime(pieces, start, end)
  {
    hide Covered, SharedTime;
    r := [];
    CoveredNothing();
    NothingShared(start, end);
    for i := 0 to |pieces|
      invariant NonEmptyIntervals(r) && Covered(r) == SharedTime(pieces[..i], start, end)
    {
      assert pieces[..i + 1] == pieces[..i] + [pieces[i]];
      SharedSnoc(pieces[..i], pieces[i], start, end);
      var overlap := Overlap(pieces[i], start, end);
      if overlap.Some? {
        CoveredSnoc(r, overlap.value);
        r := r + [overlap.value];
      }
    }
    assert pieces[..|pieces|] == pieces;
  }

  lemma NothingShared(start: int, end: int)
    ensures SharedTime([], start, end) == {}
  {
  }

  /** What is shared lasts no longer than the interval. */
  lemma SharedAtMostSpan(pieces: seq<Piece>, start: int, end: int)
    requires start < end
    ensures |SharedTime(pieces, start, end)| <= end - start
  {
    SubsetSize(SharedTime(pieces, start, end), Span(start, end));
  }

  lemma CoveredConcat(a: seq<TimeInterval>, b: seq<TimeInterval>)
    ensures Covered(a + b) == Covered(a) + Covered(b)
  {
    hide Covered;
    forall t ensures t in Covered(a + b) <==> t in Covered(a) || t in Covered(b) {
      CoveredMember(a + b, t);
      CoveredMember(a, t);
      CoveredMember(b, t);
      assert forall v :: v in a + b <==> v in a || v in b;
    }
  }

  ghost function PieceIntervals(pieces: seq<Piece>): (r: seq<TimeInterval>)
    ensures |r| == |pieces| && forall i :: 0 <= i < |r| ==> r[i] == TimeInterval(pieces[i].start, pieces[i].end)
  {
    seq(|pieces|, i requires 0 <= i < |pieces| => TimeInterval(pieces[i].start, pieces[i].end))
  }

  /** A union never lasts longer than its parts together. */
  lemma {:induction false} UnionAtMostSum(pieces: seq<Piece>)
    requires forall i :: 0 <= i < |pieces| ==> pieces[i].start < pieces[i].end
    ensures |Covered(PieceIntervals(pieces))| <= TotalDuration(pieces)
  {
    if pieces != [] {
      var n := |pieces| - 1;
      UnionAtMostSum(pieces[..n]);
      assert PieceIntervals(pieces)[..n] == PieceIntervals(pieces[..n]);
      var span := Span(pieces[n].start, pieces[n].end);
      var before := Covered(PieceIntervals(pieces[..n]));
      assert |before + span| <= |before| + |span|;
    }
  }

  lemma SharedInPieces(pieces: seq<Piece>, start: int, end: int)
    ensures SharedTime(pieces, start, end) <= Covered(PieceIntervals(pieces))
  {
    hide Covered;
    forall t | t in SharedTime(pieces, start, end) ensures t in Covered(PieceIntervals(pieces)) {
      var p :| p in pieces && p.start <= t < p.end;
      var i :| 0 <= i < |pieces| && pieces[i] == p;
      assert PieceIntervals(pieces)[i] in PieceIntervals(pieces) && Contains(PieceIntervals(pieces)[i], t);
      CoveredMember(PieceIntervals(pieces), t);
    }
  }
}
