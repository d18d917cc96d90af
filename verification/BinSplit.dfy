/** Splitting one matched segment at bin edges (`make_pieces`). */
module BinSplit {
  import opened Wrappers
  import opened Numbers
  import opened Rounding
  import opened RoadBinTypes

  function Ceiling(x: real): int { -(-x).Floor }

  /** Longitudinal bins of an arc. */
  function BinCount(arcLength: real, binLength: real): nat
    requires arcLength > 0.0 && binLength > 0.0
  {
    PositiveQuotient(arcLength, binLength);
    Ceiling(arcLength / binLength)
  }

  lemma PositiveQuotient(x: real, y: real)
    requires x > 0.0 && y > 0.0
    ensures x / y > 0.0
  {
  }

  /** Two matched points on one arc, in time order and moving forward. */
  datatype Segment = Segment(arc: nat, road: string, sequence: string, arcLength: real, binLength: real,
                             t0: int64, t1: int64, from: real, to: real, speed0: real, speed1: real,
                             headingChange: Option<real>)
  {
    predicate Valid() {
      0.0 < binLength && 0.0 <= from < to <= arcLength && t0 < t1
    }
  }

  function Fraction(s: Segment, offset: real): real
    requires s.Valid()
  {
    (offset - s.from) / (s.to - s.from)
  }

  /** Interpolated nanosecond at which the segment passes `offset`. */
  function TimeAt(s: Segment, offset: real): int
    requires s.Valid()
  {
    s.t0 + InterpolatedOffset(s.t1 - s.t0, Fraction(s, offset))
  }

  function InterpolatedOffset(duration: nat, fraction: real): int {
    RoundAway(Times(duration as real, fraction))
  }

  function Times(x: real, y: real): real { x * y }

  function SpeedAt(s: Segment, offset: real): real
    requires s.Valid()
  {
    s.speed0 + (s.speed1 - s.speed0) * Fraction(s, offset)
  }

  function MakePiece(s: Segment, bin: nat, entry: real, exit: real): Piece
    requires s.Valid()
  {
    Piece(s.arc, bin, s.road, s.sequence, TimeAt(s, entry), TimeAt(s, exit), entry, exit,
          SpeedAt(s, entry), SpeedAt(s, exit),
          if s.headingChange.Some? then s.headingChange.value * ((exit - entry) / (s.to - s.from)) else 0.0, 0)
  }

  // ----- arithmetic -----

  lemma QuotientOrder(x: real, y: real, d: real)
    requires d > 0.0
    ensures x <= y <==> x / d <= y / d
    ensures d / d == 1.0 && 0.0 / d == 0.0
  {
    assert x / d * d == x && y / d * d == y;
    if x / d > y / d {
      assert (x / d - y / d) * d > 0.0;
    } else {
      assert (y / d - x / d) * d >= 0.0;
    }
  }

  lemma TimesMonotone(d: real, x: real, y: real)
    requires d >= 0.0 && x <= y
    ensures Times(d, x) <= Times(d, y)
  {
    assert d * (y - x) >= 0.0;
  }

  lemma TimesStrict(d: real, x: real, y: real)
    requires d > 0.0 && x < y
    ensures Times(d, x) < Times(d, y)
  {
    assert d * (y - x) > 0.0;
  }

  lemma TimesUnit(d: real)
    ensures Times(d, 0.0) == 0.0 && Times(d, 1.0) == d
  {
  }

  lemma FractionOrder(s: Segment, x: real, y: real)
    requires s.Valid() && s.from <= x <= y <= s.to
    ensures 0.0 <= Fraction(s, x) <= Fraction(s, y) <= 1.0
    ensures Fraction(s, s.from) == 0.0 && Fraction(s, s.to) == 1.0
  {
    var d := s.to - s.from;
    QuotientOrder(0.0, x - s.from, d);
    QuotientOrder(x - s.from, y - s.from, d);
    QuotientOrder(y - s.from, d, d);
  }

  lemma TimesOrder(d: real, f: real, g: real)
    requires 0.0 <= d && 0.0 <= f <= g <= 1.0
    ensures 0.0 <= Times(d, f) <= Times(d, g) <= d
    ensures Times(d, 0.0) == 0.0 && Times(d, 1.0) == d
  {
    hide Times;
    TimesUnit(d);
    TimesMonotone(d, 0.0, f);
    TimesMonotone(d, f, g);
    TimesMonotone(d, g, 1.0);
  }

  lemma InterpolationOrder(duration: nat, f: real, g: real)
    requires 0.0 <= f <= g <= 1.0
    ensures 0 <= InterpolatedOffset(duration, f) <= InterpolatedOffset(duration, g) <= duration
    ensures InterpolatedOffset(duration, 0.0) == 0 && InterpolatedOffset(duration, 1.0) == duration
  {
    hide Times;
    var d := duration as real;
    TimesOrder(d, f, g);
    RoundAwayMonotone(Times(d, f), Times(d, g));
    RoundAwayMonotone(Times(d, g), d);
    RoundAwayInteger(duration);
    RoundAwayInteger(0);
  }

  /** Interpolated times start at t0, end at t1 and never run backwards. */
  lemma TimeAtOrder(s: Segment, x: real, y: real)
    requires s.Valid() && s.from <= x <= y <= s.to
    ensures s.t0 <= TimeAt(s, x) <= TimeAt(s, y) <= s.t1
    ensures TimeAt(s, s.from) == s.t0 && TimeAt(s, s.to) == s.t1
  {
    hide InterpolatedOffset;
    FractionOrder(s, x, y);
    InterpolationOrder(s.t1 - s.t0, Fraction(s, x), Fraction(s, y));
  }

  // ----- interpolation in plain terms -----

  /** `time` is the whole nanosecond nearest to when the segment passes `x` at constant speed, the later of two. */
  ghost predicate PassesAt(s: Segment, x: real, time: int) {
    var length := s.to - s.from;
    var late := (time - s.t0) as real * length - (s.t1 - s.t0) as real * (x - s.from);
    -length < 2.0 * late <= length
  }

  lemma ScaledGap(r: real, share: real, length: real, product: real)
    requires length > 0.0 && share * length == product && -0.5 < r - share <= 0.5
    ensures -length < 2.0 * (r * length - product) <= length
  {
    TimesDifference(r, share, length);
    HalfBounds(r - share, length, r * length - product);
  }

  lemma HalfBounds(gap: real, length: real, late: real)
    requires length > 0.0 && gap * length == late && -0.5 < gap <= 0.5
    ensures -length < 2.0 * late <= length
  {
    PositiveTimes(0.5 + gap, length);
    ProductNonNegative(0.5 - gap, length);
    TimesDifference(0.5, gap, length);
    TimesSum(0.5, gap, length);
  }

  lemma TimesDifference(a: real, b: real, c: real)
    ensures (a - b) * c == a * c - b * c
  {
  }

  lemma TimesSum(a: real, b: real, c: real)
    ensures (a + b) * c == a * c + b * c
  {
  }

  lemma PositiveTimes(a: real, b: real)
    requires a > 0.0 && b > 0.0
    ensures a * b > 0.0
  {
  }

  /** Interpolated times are the nearest nanoseconds to uniform motion. */
  lemma TimeAtNearest(s: Segment, x: real)
    requires s.Valid() && s.from <= x <= s.to
    ensures PassesAt(s, x, TimeAt(s, x))
  {
    hide RoundAway;
    var f, d := Fraction(s, x), (s.t1 - s.t0) as real;
    FractionOrder(s, x, x);
    ShareProduct(d, x - s.from, s.to - s.from);
    TimesOrder(d, f, f);
    RoundAwayNear(Times(d, f));
    ScaledGap((TimeAt(s, x) - s.t0) as real, Times(d, f), s.to - s.from, d * (x - s.from));
  }

  lemma ShareProduct(d: real, part: real, whole: real)
    requires whole > 0.0
    ensures Times(d, part / whole) * whole == d * part
  {
    var f := part / whole;
    assert f * whole == part;
    assert d * f * whole == d * (f * whole);
  }

  lemma RoundAwayNear(x: real)
    requires x >= 0.0
    ensures -0.5 < RoundAway(x) as real - x <= 0.5
  {
    FloorBounds(x + 0.5);
  }

  /** Speeds change linearly along the segment, and turning is shared out by distance. */
  ghost predicate MovesLinearly(s: Segment, p: Piece) {
    var length := s.to - s.from;
    && (p.startSpeed - s.speed0) * length == (s.speed1 - s.speed0) * (p.entry - s.from)
    && (p.endSpeed - s.speed0) * length == (s.speed1 - s.speed0) * (p.exit - s.from)
    && p.yaw * length == (if s.headingChange.Some? then s.headingChange.value * (p.exit - p.entry) else 0.0)
    && p.arc == s.arc && p.road == s.road && p.sequence == s.sequence
  }

  lemma MadeLinearly(s: Segment, bin: nat, entry: real, exit: real)
    requires s.Valid()
    ensures MovesLinearly(s, MakePiece(s, bin, entry, exit))
  {
    hide TimeAt;
    var length := s.to - s.from;
    ShareProduct(s.speed1 - s.speed0, entry - s.from, length);
    ShareProduct(s.speed1 - s.speed0, exit - s.from, length);
    if s.headingChange.Some? {
      ShareProduct(s.headingChange.value, exit - entry, length);
    }
  }

  lemma FloorEdges(offset: real, binLength: real, q: real)
    requires binLength > 0.0 && binLength * q == offset
    ensures binLength * q.Floor as real <= offset < binLength * (q.Floor + 1) as real
  {
    TimesMonotone(binLength, q.Floor as real, q);
    TimesStrict(binLength, q, (q.Floor + 1) as real);
  }

  /** The bin that holds an offset: its edges enclose it, and it exists on the arc. */
  lemma BinHolds(offset: real, arcLength: real, binLength: real)
    requires 0.0 <= offset < arcLength && 0.0 < binLength
    ensures var k := (offset / binLength).Floor;
            0 <= k < BinCount(arcLength, binLength) &&
            binLength * k as real <= offset < binLength * (k + 1) as real
  {
    QuotientOrder(0.0, offset, binLength);
    QuotientOrder(offset, arcLength, binLength);
    QuotientOrder(arcLength, offset, binLength);
    FloorEdges(offset, binLength, offset / binLength);
  }

  lemma QuotientUnique(d: real, q: real, k: real)
    requires d > 0.0 && Times(d, q) == Times(d, k)
    ensures q == k
  {
    hide Times;
    if q < k {
      TimesStrict(d, q, k);
    } else if k < q {
      TimesStrict(d, k, q);
    }
  }

  /** A bin edge belongs to the bin that starts there. */
  lemma EdgeBin(edge: real, k: nat, binLength: real)
    requires 0.0 < binLength && edge == binLength * k as real
    ensures (edge / binLength).Floor == k
  {
    assert binLength * (edge / binLength) == edge;
    QuotientUnique(binLength, edge / binLength, k as real);
  }

  // ----- the splitter -----

  function BinOf(s: Segment, offset: real): nat
    requires s.Valid() && s.from <= offset < s.to
  {
    BinHolds(offset, s.arcLength, s.binLength);
    (offset / s.binLength).Floor
  }

  /** The stretch lies between the edges of one existing bin. */
  ghost predicate InBin(s: Segment, bin: nat, entry: real, exit: real) {
    0.0 < s.binLength && 0.0 < s.arcLength && bin < BinCount(s.arcLength, s.binLength) &&
    s.binLength * bin as real <= entry < exit <= s.binLength * (bin + 1) as real
  }

  ghost predicate Stretch(s: Segment, entry: real, exit: real) {
    s.Valid() && s.from <= entry < exit <= s.to && InBin(s, BinOf(s, entry), entry, exit)
  }

  /** Cut points that divide the travelled stretch into pieces of one bin each. */
  ghost predicate Tiles(s: Segment, cuts: seq<real>) {
    cuts != [] && cuts[0] == s.from &&
    forall i, j :: 0 <= i && i + 1 == j < |cuts| ==> Stretch(s, cuts[i], cuts[j])
  }

  ghost function Last(cuts: seq<real>): real
    requires cuts != []
  {
    cuts[|cuts| - 1]
  }

  /** The pieces of a tiling, without those that round to no time at all. */
  ghost function Kept(s: Segment, cuts: seq<real>): seq<Piece>
    requires s.Valid() && Tiles(s, cuts)
  {
    if |cuts| == 1 then []
    else
      var front := cuts[..|cuts| - 1];
      assert Stretch(s, Last(front), Last(cuts));
      Kept(s, front) +
      if TimeAt(s, Last(cuts)) > TimeAt(s, Last(front)) then
        [MakePiece(s, BinOf(s, Last(front)), Last(front), Last(cuts))]
      else []
  }

  /** Pieces follow one another in time without gaps from `t0` to `t1`. */
  ghost predicate Contiguous(pieces: seq<Piece>, t0: int, t1: int) {
    && (pieces == [] ==> t0 == t1)
    && (pieces != [] ==> pieces[0].start == t0 && pieces[|pieces| - 1].end == t1)
    && forall i, j :: 0 <= i && i + 1 == j < |pieces| ==> pieces[i].end == pieces[j].start
  }

  ghost predicate PieceOk(s: Segment, p: Piece) {
    s.Valid() && s.from <= p.entry < p.exit <= s.to && InBin(s, p.bin, p.entry, p.exit) &&
    s.t0 <= p.start < p.end <= s.t1 && p.start == TimeAt(s, p.entry) && p.end == TimeAt(s, p.exit) &&
    PassesAt(s, p.entry, p.start) && PassesAt(s, p.exit, p.end) && MovesLinearly(s, p)
  }

  lemma {:induction false} KeptPiecesOk(s: Segment, cuts: seq<real>)
    requires s.Valid() && Tiles(s, cuts)
    ensures s.from <= Last(cuts) <= s.to
    ensures forall k :: 0 <= k < |Kept(s, cuts)| ==> PieceOk(s, Kept(s, cuts)[k])
  {
    hide TimeAt, PassesAt, MovesLinearly;
    hide InBin;
    hide BinOf;
    if |cuts| > 1 {
      var front := cuts[..|cuts| - 1];
      KeptPiecesOk(s, front);
      assert Stretch(s, Last(front), Last(cuts));
      TimeAtOrder(s, Last(front), Last(cuts));
      MakePieceFacts(s, BinOf(s, Last(front)), Last(front), Last(cuts));
      MadeLinearly(s, BinOf(s, Last(front)), Last(front), Last(cuts));
      TimeAtNearest(s, Last(front));
      TimeAtNearest(s, Last(cuts));
    }
  }

  lemma {:induction false} KeptContiguous(s: Segment, cuts: seq<real>)
    requires s.Valid() && Tiles(s, cuts)
    ensures Contiguous(Kept(s, cuts), s.t0, TimeAt(s, Last(cuts)))
  {
    hide TimeAt;
    hide InBin;
    hide BinOf;
    if |cuts| == 1 {
      TimeAtOrder(s, s.from, s.to);
    } else {
      var front := cuts[..|cuts| - 1];
      KeptContiguous(s, front);
      assert Stretch(s, Last(front), Last(cuts));
      TimeAtOrder(s, Last(front), Last(cuts));
      MakePieceFacts(s, BinOf(s, Last(front)), Last(front), Last(cuts));
    }
  }

  lemma {:induction false} KeptDuration(s: Segment, cuts: seq<real>)
    requires s.Valid() && Tiles(s, cuts)
    ensures TotalDuration(Kept(s, cuts)) == TimeAt(s, Last(cuts)) - s.t0
  {
    hide TimeAt;
    hide InBin;
    hide BinOf;
    if |cuts| == 1 {
      TimeAtOrder(s, s.from, s.to);
    } else {
      var front := cuts[..|cuts| - 1];
      KeptDuration(s, front);
      assert Stretch(s, Last(front), Last(cuts));
      TimeAtOrder(s, Last(front), Last(cuts));
      var next := MakePiece(s, BinOf(s, Last(front)), Last(front), Last(cuts));
      MakePieceFacts(s, BinOf(s, Last(front)), Last(front), Last(cuts));
      TotalDurationSnoc(Kept(s, front), next);
      assert Kept(s, front) + [] == Kept(s, front);
      assert next.Duration() == TimeAt(s, Last(cuts)) - TimeAt(s, Last(front));
    }
  }

  /** Dropping zero-duration pieces neither loses time nor opens a gap. */
  lemma KeptTilesTime(s: Segment, cuts: seq<real>)
    requires s.Valid() && Tiles(s, cuts) && Last(cuts) == s.to
    ensures forall k :: 0 <= k < |Kept(s, cuts)| ==> PieceOk(s, Kept(s, cuts)[k])
    ensures Contiguous(Kept(s, cuts), s.t0, s.t1) && TotalDuration(Kept(s, cuts)) == s.t1 - s.t0
  {
    hide TimeAt;
    hide PieceOk;
    KeptPiecesOk(s, cuts);
    KeptContiguous(s, cuts);
    KeptDuration(s, cuts);
    TimeAtOrder(s, s.from, s.to);
  }

  lemma MakePieceFacts(s: Segment, bin: nat, entry: real, exit: real)
    requires s.Valid()
    ensures var p := MakePiece(s, bin, entry, exit);
            p.bin == bin && p.entry == entry && p.exit == exit &&
            p.start == TimeAt(s, entry) && p.end == TimeAt(s, exit)
  {
  }

  /** Where the walk leaves the bin that holds `cursor`. */
  lemma NextCut(s: Segment, cursor: real, bin: nat, exit: real)
    requires s.Valid() && s.from <= cursor < s.to && bin == BinOf(s, cursor)
    requires exit == Min(s.to, Min(s.arcLength, s.binLength * (bin + 1) as real))
    ensures Stretch(s, cursor, exit)
    ensures exit < s.to ==> BinOf(s, exit) == bin + 1
  {
    BinHolds(cursor, s.arcLength, s.binLength);
    if exit < s.to {
      EdgeBin(exit, bin + 1, s.binLength);
    }
  }

  method SplitSegment(s: Segment) returns (r: Result<seq<Piece>, Error>, ghost cuts: seq<real>)
    requires s.Valid()
    ensures r.Err? <==> s.t1 - s.t0 > INT64_MAX
    ensures r.Ok? ==>
              && Tiles(s, cuts) && Last(cuts) == s.to && r.value == Kept(s, cuts)
              && |cuts| - 1 <= BinCount(s.arcLength, s.binLength)
              && (forall k :: 0 <= k < |r.value| ==> PieceOk(s, r.value[k]))
              && Contiguous(r.value, s.t0, s.t1) && TotalDuration(r.value) == s.t1 - s.t0
  {
    hide TimeAt;
    hide PieceOk;
    hide InBin;
    hide BinOf;
    cuts := [s.from];
    if CheckedDifference(s.t1, s.t0).Err? {
      return Err(TimeOverflow), cuts;
    }
    var pieces := [];
    var cursor := s.from;
    while cursor < s.to
      invariant s.from <= cursor <= s.to && Tiles(s, cuts) && Last(cuts) == cursor
      invariant pieces == Kept(s, cuts)
      invariant cursor < s.to ==> |cuts| - 1 <= BinOf(s, cursor)
      invariant |cuts| - 1 <= BinCount(s.arcLength, s.binLength)
      decreases BinCount(s.arcLength, s.binLength) - |cuts| + 1
    {
      var bin := Locate(s, cursor);
      var exit := Min(s.to, Min(s.arcLength, s.binLength * (bin + 1) as real));
      NextCut(s, cursor, bin, exit);
      if !(exit > cursor) {
        assert false;
      }
      BinExists(s, cursor);
      ghost var before := cuts;
      cuts := cuts + [exit];
      assert cuts[..|cuts| - 1] == before;
      TilesSnoc(s, before, exit);
      if TimeAt(s, exit) > TimeAt(s, cursor) {
        pieces := pieces + [MakePiece(s, bin, cursor, exit)];
      }
      cursor := exit;
    }
    KeptTilesTime(s, cuts);
    return Ok(pieces), cuts;
  }

  lemma TilesSnoc(s: Segment, cuts: seq<real>, exit: real)
    requires Tiles(s, cuts) && Stretch(s, Last(cuts), exit)
    ensures Tiles(s, cuts + [exit])
  {
    hide Stretch;
    var all := cuts + [exit];
    forall i, j | 0 <= i && i + 1 == j < |all| ensures Stretch(s, all[i], all[j]) {
      if j < |cuts| {
        assert Stretch(s, cuts[i], cuts[j]);
      }
    }
  }

  lemma BinExists(s: Segment, cursor: real)
    requires s.Valid() && s.from <= cursor < s.to
    ensures BinOf(s, cursor) < BinCount(s.arcLength, s.binLength)
  {
    BinHolds(cursor, s.arcLength, s.binLength);
  }

  /** The bin of the cursor; the clamp to the last bin never has an effect. */
  method Locate(s: Segment, cursor: real) returns (bin: nat)
    requires s.Valid() && s.from <= cursor < s.to
    ensures bin == BinOf(s, cursor)
  {
    BinHolds(cursor, s.arcLength, s.binLength);
    var rawBin := (cursor / s.binLength).Floor;
    var count := BinCount(s.arcLength, s.binLength);
    bin := MinNat(rawBin, count - 1);
  }
}
