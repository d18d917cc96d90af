/** Turning matched paths into deduplicated pieces (the first half of `make_pieces`). */
module PieceMaker {
  import opened Wrappers
  import opened RoadBinTypes
  import opened BinSplit

  datatype MatchedPoint = MatchedPoint(time: int64, arc: Option<nat>, offset: real, confident: bool, stationary: bool,
                                       speed: real, heading: Option<real>)

  datatype MatchedPath = MatchedPath(road: string, sequence: string, points: seq<MatchedPoint>)

  /** Lengths of the arcs, the bin length and the absolute wrapped heading difference. */
  datatype Setting = Setting(arcLengths: seq<real>, binLength: real, headingDifference: (real, real) -> real) {
    predicate Valid() {
      binLength > 0.0 && forall i :: 0 <= i < |arcLengths| ==> arcLengths[i] > 0.0
    }
  }

  /** The checks of validate_inputs on the points of a path. */
  predicate ValidPath(setting: Setting, path: MatchedPath) {
    (forall i :: 0 <= i < |path.points| && path.points[i].arc.Some? ==>
       path.points[i].arc.value < |setting.arcLengths| &&
       0.0 <= path.points[i].offset <= setting.arcLengths[path.points[i].arc.value]) &&
    (forall i :: 0 < i < |path.points| ==> Ascending(path, i))
  }

  predicate Ascending(path: MatchedPath, i: nat)
    requires 0 < i < |path.points|
  {
    path.points[i - 1].time < path.points[i].time
  }

  /** The segment between points `i - 1` and `i`, when both are confident, moving and on one arc, going forward. */
  function SegmentAt(setting: Setting, path: MatchedPath, i: nat): (r: Option<Segment>)
    requires setting.Valid() && ValidPath(setting, path) && 0 < i < |path.points|
    ensures r.Some? ==> r.value.Valid()
  {
    var left, right := path.points[i - 1], path.points[i];
    if !left.confident || !right.confident || left.stationary || right.stationary ||
       left.arc.None? || left.arc != right.arc || right.offset - left.offset <= 0.0 then
      None
    else
      assert Ascending(path, i);
      Some(Segment(left.arc.value, path.road, path.sequence, setting.arcLengths[left.arc.value], setting.binLength,
                   left.time, right.time, left.offset, right.offset, left.speed, right.speed,
                   if left.heading.Some? && right.heading.Some?
                   then Some(setting.headingDifference(left.heading.value, right.heading.value)) else None))
  }

  /** From point `i - 1` to point `i` the vehicle is known to drive forward along one arc. */
  ghost predicate DrivesAlong(path: MatchedPath, i: nat, arc: nat) {
    0 < i < |path.points| &&
    (forall p :: p in [path.points[i - 1], path.points[i]] ==> p.confident && !p.stationary && p.arc == Some(arc)) &&
    path.points[i - 1].offset < path.points[i].offset
  }

  /** There is a segment exactly between two points that drive forward along one arc, and it runs from the one's time,
      place and speed to the other's. */
  lemma SegmentMeaning(setting: Setting, path: MatchedPath, i: nat)
    requires setting.Valid() && ValidPath(setting, path) && 0 < i < |path.points|
    ensures var left, right, found := path.points[i - 1], path.points[i], SegmentAt(setting, path, i);
            && (found.Some? <==> exists arc :: DrivesAlong(path, i, arc))
            && (found.Some? ==>
                  var s := found.value;
                  && DrivesAlong(path, i, s.arc) && s.sequence == path.sequence && s.road == path.road
                  && s.t0 == left.time && s.from == left.offset && s.speed0 == left.speed
                  && s.t1 == right.time && s.to == right.offset && s.speed1 == right.speed
                  && s.arcLength == setting.arcLengths[s.arc] && s.binLength == setting.binLength
                  && (s.headingChange.Some? <==> left.heading.Some? && right.heading.Some?)
                  && (s.headingChange.Some? ==>
                        s.headingChange.value == setting.headingDifference(left.heading.value, right.heading.value)))
  {
    var left, right := path.points[i - 1], path.points[i];
    forall arc | DrivesAlong(path, i, arc) ensures SegmentAt(setting, path, i).Some? {
      assert left in [left, right] && right in [left, right];
    }
    if SegmentAt(setting, path, i).Some? {
      assert DrivesAlong(path, i, left.arc.value);
    }
  }

  datatype Identity = Identity(sequence: string, arc: nat, start: int, end: int, entry: real, exit: real)

  function IdentityOf(p: Piece): Identity { Identity(p.sequence, p.arc, p.start, p.end, p.entry, p.exit) }

  /** Pieces are the same when they cover the same stretch of arc at the same time in the same sequence. */
  lemma IdentityMeaning(p: Piece, q: Piece)
    ensures IdentityOf(p) == IdentityOf(q) <==>
              p.sequence == q.sequence && p.arc == q.arc && p.start == q.start && p.end == q.end &&
              p.entry == q.entry && p.exit == q.exit
  {
  }

  ghost predicate DistinctIdentities(pieces: seq<Piece>) {
    forall i, j :: 0 <= i < j < |pieces| ==> IdentityOf(pieces[i]) != IdentityOf(pieces[j])
  }

  /** `pieces` contains, up to identity, a tiling of the whole time of the segment. */
  ghost predicate Represents(pieces: seq<Piece>, s: Segment) {
    exists split: seq<Piece> ::
      Contiguous(split, s.t0, s.t1) && TotalDuration(split) == s.t1 - s.t0 &&
      (forall k :: 0 <= k < |split| ==> PieceOk(s, split[k])) && AllPresent(pieces, split)
  }

  ghost predicate AllPresent(pieces: seq<Piece>, split: seq<Piece>) {
    forall p :: p in split ==> exists q :: q in pieces && IdentityOf(q) == IdentityOf(p)
  }

  ghost predicate RepresentsPoint(setting: Setting, path: MatchedPath, i: nat, pieces: seq<Piece>)
    requires setting.Valid() && ValidPath(setting, path) && 0 < i < |path.points|
  {
    SegmentAt(setting, path, i).Some? ==> Represents(pieces, SegmentAt(setting, path, i).value)
  }

  ghost predicate RepresentsPath(setting: Setting, path: MatchedPath, bound: nat, pieces: seq<Piece>)
    requires setting.Valid() && ValidPath(setting, path)
  {
    forall i :: 0 < i < bound && i < |path.points| ==> RepresentsPoint(setting, path, i, pieces)
  }

  lemma PrefixPresent(few: seq<Piece>, many: seq<Piece>)
    requires few <= many
    ensures AllPresent(many, few)
  {
    assert forall p :: p in few ==> p in many;
  }

  lemma PresentThrough(many: seq<Piece>, few: seq<Piece>, split: seq<Piece>)
    requires AllPresent(many, few) && AllPresent(few, split)
    ensures AllPresent(many, split)
  {
    forall p | p in split ensures exists q :: q in many && IdentityOf(q) == IdentityOf(p) {
      var f :| f in few && IdentityOf(f) == IdentityOf(p);
    }
  }

  lemma MorePieces(setting: Setting, path: MatchedPath, bound: nat, few: seq<Piece>, many: seq<Piece>)
    requires setting.Valid() && ValidPath(setting, path) && RepresentsPath(setting, path, bound, few)
    requires AllPresent(many, few)
    ensures RepresentsPath(setting, path, bound, many)
  {
    forall i | 0 < i < bound && i < |path.points| ensures RepresentsPoint(setting, path, i, many) {
      assert RepresentsPoint(setting, path, i, few);
      var segment := SegmentAt(setting, path, i);
      if segment.Some? {
        var s := segment.value;
        var split :| Contiguous(split, s.t0, s.t1) && TotalDuration(split) == s.t1 - s.t0 &&
                     (forall k :: 0 <= k < |split| ==> PieceOk(s, split[k])) && AllPresent(few, split);
        PresentThrough(many, few, split);
      }
    }
  }

  /** Append the pieces whose identity has not been seen. */
  method Deduplicate(split: seq<Piece>, pieces: seq<Piece>, seen: set<Identity>)
    returns (r: seq<Piece>, seen': set<Identity>)
    requires DistinctIdentities(pieces) && forall d :: d in seen <==> exists p :: p in pieces && IdentityOf(p) == d
    ensures DistinctIdentities(r) && forall d :: d in seen' <==> exists p :: p in r && IdentityOf(p) == d
    ensures pieces <= r && AllPresent(r, split)
    ensures forall p :: p in r ==> p in pieces || p in split
  {
    r, seen' := pieces, seen;
    for i := 0 to |split|
      invariant DistinctIdentities(r) && forall d :: d in seen' <==> exists p :: p in r && IdentityOf(p) == d
      invariant pieces <= r && AllPresent(r, split[..i])
      invariant forall p :: p in r ==> p in pieces || p in split
    {
      var p := split[i];
      var before := r;
      if IdentityOf(p) !in seen' {
        seen' := seen' + {IdentityOf(p)};
        r := r + [p];
      }
      assert split[..i + 1] == split[..i] + [p];
      AppendKeeps(before, r, split[..i], p);
    }
    assert split[..|split|] == split;
  }

  lemma AppendKeeps(before: seq<Piece>, after: seq<Piece>, split: seq<Piece>, p: Piece)
    requires before <= after && AllPresent(before, split)
    requires exists q :: q in after && IdentityOf(q) == IdentityOf(p)
    ensures AllPresent(after, split + [p])
  {
    forall x | x in split + [p] ensures exists q :: q in after && IdentityOf(q) == IdentityOf(x) {
      if x in split {
        var q :| q in before && IdentityOf(q) == IdentityOf(x);
        assert q in after;
      }
    }
  }

  /** `p` is exactly the piece of the segment between two of its offsets inside one bin. */
  ghost predicate FromSegment(s: Segment, p: Piece) {
    PieceOk(s, p) && p == MakePiece(s, p.bin, p.entry, p.exit)
  }

  lemma {:induction false} KeptFromSegment(s: Segment, cuts: seq<real>)
    requires s.Valid() && Tiles(s, cuts)
    ensures forall k :: 0 <= k < |Kept(s, cuts)| ==> FromSegment(s, Kept(s, cuts)[k])
  {
    hide PieceOk, Stretch;
    KeptPiecesOk(s, cuts);
    KeptMade(s, cuts);
  }

  lemma {:induction false} KeptMade(s: Segment, cuts: seq<real>)
    requires s.Valid() && Tiles(s, cuts)
    ensures forall k :: 0 <= k < |Kept(s, cuts)| ==>
      var p := Kept(s, cuts)[k]; p == MakePiece(s, p.bin, p.entry, p.exit)
  {
    hide Stretch, TimeAt, SpeedAt, BinOf;
    if |cuts| > 1 {
      KeptMade(s, cuts[..|cuts| - 1]);
    }
  }

  ghost predicate TooLong(setting: Setting, path: MatchedPath, i: nat)
    requires setting.Valid() && ValidPath(setting, path) && 0 < i < |path.points|
  {
    var s := SegmentAt(setting, path, i);
    s.Some? && s.value.t1 - s.value.t0 > INT64_MAX
  }

  ghost predicate HasTooLong(setting: Setting, path: MatchedPath, bound: nat)
    requires setting.Valid() && ValidPath(setting, path) && bound <= |path.points|
  {
    exists i :: 0 < i < bound && TooLong(setting, path, i)
  }

  /** `p` comes from a segment of the path. */
  ghost predicate FromPath(setting: Setting, path: MatchedPath, p: Piece)
    requires setting.Valid() && ValidPath(setting, path)
  {
    exists i {:trigger SegmentAt(setting, path, i)} :: 0 < i < |path.points| &&
      SegmentAt(setting, path, i).Some? && FromSegment(SegmentAt(setting, path, i).value, p)
  }

  /** Pieces so far, with the identities seen among them. */
  ghost predicate Pool(pieces: seq<Piece>, seen: set<Identity>) {
    DistinctIdentities(pieces) && (forall d :: d in seen <==> exists p :: p in pieces && IdentityOf(p) == d) &&
    forall p :: p in pieces ==> p.start < p.end
  }

  /** Add the pieces of one segment to the pool. */
  method AddSegment(s: Segment, pieces: seq<Piece>, seen: set<Identity>)
    returns (r: Result<seq<Piece>, Error>, seen': set<Identity>)
    requires s.Valid() && Pool(pieces, seen)
    ensures r.Ok? ==> Pool(r.value, seen') && pieces <= r.value && Represents(r.value, s)
    ensures r.Ok? ==> forall p :: p in r.value ==> p in pieces || FromSegment(s, p)
    ensures r.Err? <==> s.t1 - s.t0 > INT64_MAX
  {
    hide PieceOk, Tiles, Contiguous, TotalDuration, Represents, AllPresent, FromSegment;
    var split, cuts := SplitSegment(s);
    if split.Err? {
      return Err(TimeOverflow), seen;
    }
    SplitPositive(s, split.value);
    KeptFromSegment(s, cuts);
    var all;
    all, seen' := Deduplicate(split.value, pieces, seen);
    SplitRepresents(s, split.value, all);
    r := Ok(all);
  }

  method AddPath(setting: Setting, path: MatchedPath, pieces: seq<Piece>, seen: set<Identity>)
    returns (r: Result<seq<Piece>, Error>, seen': set<Identity>)
    requires setting.Valid() && ValidPath(setting, path) && Pool(pieces, seen)
    ensures r.Ok? ==> Pool(r.value, seen') && pieces <= r.value && RepresentsPath(setting, path, |path.points|, r.value)
    ensures r.Ok? ==> forall p :: p in r.value ==> p in pieces || FromPath(setting, path, p)
    ensures r.Err? <==> HasTooLong(setting, path, |path.points|)
  {
    hide Pool, Represents, ValidPath, FromSegment;
    var all := pieces;
    seen' := seen;
    var i := 1;
    while i < |path.points|
      invariant 1 <= i && Pool(all, seen') && pieces <= all && (path.points != [] ==> i <= |path.points|)
      invariant RepresentsPath(setting, path, i, all)
      invariant forall p :: p in all ==> p in pieces || FromPath(setting, path, p)
      invariant path.points != [] ==> !HasTooLong(setting, path, i)
    {
      var segment := SegmentAt(setting, path, i);
      if segment.Some? {
        var before := all;
        var added;
        added, seen' := AddSegment(segment.value, all, seen');
        if added.Err? {
          assert TooLong(setting, path, i);
          return Err(TimeOverflow), seen';
        }
        assert !TooLong(setting, path, i);
        all := added.value;
        PrefixPresent(before, all);
        MorePieces(setting, path, i, before, all);
      }
      assert RepresentsPoint(setting, path, i, all);
      i := i + 1;
    }
    r := Ok(all);
  }

  /** Pieces of all paths: each cut from an eligible segment, no identity twice, and every eligible segment covered. */
  method MakePieces(setting: Setting, paths: seq<MatchedPath>) returns (r: Result<seq<Piece>, Error>)
    requires setting.Valid() && forall k :: 0 <= k < |paths| ==> ValidPath(setting, paths[k])
    ensures r.Ok? ==>
              && DistinctIdentities(r.value)
              && (forall p :: p in r.value ==> p.start < p.end)
              && (forall k :: 0 <= k < |paths| ==> RepresentsPath(setting, paths[k], |paths[k].points|, r.value))
              && (forall p :: p in r.value ==> exists k :: 0 <= k < |paths| && FromPath(setting, paths[k], p))
    ensures r.Err? <==> exists k :: 0 <= k < |paths| && HasTooLong(setting, paths[k], |paths[k].points|)
  {
    hide RepresentsPath, ValidPath, FromPath, HasTooLong, AllPresent;
    var pieces: seq<Piece> := [];
    var seen: set<Identity> := {};
    for k := 0 to |paths|
      invariant Pool(pieces, seen)
      invariant forall m :: 0 <= m < k ==> RepresentsPath(setting, paths[m], |paths[m].points|, pieces)
      invariant forall p :: p in pieces ==> exists m :: 0 <= m < k && FromPath(setting, paths[m], p)
      invariant forall m :: 0 <= m < k ==> !HasTooLong(setting, paths[m], |paths[m].points|)
    {
      var before := pieces;
      var added;
      added, seen := AddPath(setting, paths[k], pieces, seen);
      if added.Err? {
        return Err(TimeOverflow);
      }
      pieces := added.value;
      PrefixPresent(before, pieces);
      forall m | 0 <= m < k ensures RepresentsPath(setting, paths[m], |paths[m].points|, pieces) {
        MorePieces(setting, paths[m], |paths[m].points|, before, pieces);
      }
    }
    return Ok(pieces);
  }

  lemma SplitPositive(s: Segment, split: seq<Piece>)
    requires forall k :: 0 <= k < |split| ==> PieceOk(s, split[k])
    ensures forall p :: p in split ==> p.start < p.end
  {
  }

  lemma SplitRepresents(s: Segment, split: seq<Piece>, pieces: seq<Piece>)
    requires Contiguous(split, s.t0, s.t1) && TotalDuration(split) == s.t1 - s.t0
    requires (forall k :: 0 <= k < |split| ==> PieceOk(s, split[k])) && AllPresent(pieces, split)
    ensures Represents(pieces, s)
  {
  }
}
