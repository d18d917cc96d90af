/** Nearest neighbours through a grid of unit cells (`one_way_nearest_mean`). */
module VoxelGrid {
  import opened Wrappers
  import opened Numbers

  datatype Vec = Vec(x: real, y: real, z: real)

  datatype Cell = Cell(x: int, y: int, z: int)

  const CELL_WIDTH_M: real := 1.0
  const CELL_RADIUS: int := 2
  const MAXIMUM_DISTANCE_M: real := 3.0
  const MAXIMUM_SQUARED: real := MAXIMUM_DISTANCE_M * MAXIMUM_DISTANCE_M

  function CellFor(p: Vec, width: real): Cell
    requires width > 0.0
  {
    Cell((p.x / width).Floor, (p.y / width).Floor, (p.z / width).Floor)
  }

  function Square(x: real): real { x * x }

  function SquaredDistance(p: Vec, q: Vec): real {
    Square(p.x - q.x) + Square(p.y - q.y) + Square(p.z - q.z)
  }

  // ----- linear scans -----

  predicate InBox(c: Cell, low: Cell, high: Cell) {
    low.x <= c.x <= high.x && low.y <= c.y <= high.y && low.z <= c.z <= high.z
  }

  /** Within two cells of the query along every axis. */
  ghost predicate InBlock(p: Vec, q: Vec) {
    var c := CellFor(p, CELL_WIDTH_M);
    InBox(CellFor(q, CELL_WIDTH_M), Cell(c.x - CELL_RADIUS, c.y - CELL_RADIUS, c.z - CELL_RADIUS),
          Cell(c.x + CELL_RADIUS, c.y + CELL_RADIUS, c.z + CELL_RADIUS))
  }

  /** Squared distance to the nearest reference point, at most nine. */
  ghost function Nearest(p: Vec, reference: seq<Vec>): real {
    if reference == [] then MAXIMUM_SQUARED
    else Min(Nearest(p, reference[..|reference| - 1]), SquaredDistance(p, reference[|reference| - 1]))
  }

  /** The same over the points of the block only. */
  ghost function NearestInBlock(p: Vec, reference: seq<Vec>): real {
    if reference == [] then MAXIMUM_SQUARED
    else
      var front, q := NearestInBlock(p, reference[..|reference| - 1]), reference[|reference| - 1];
      if InBlock(p, q) then Min(front, SquaredDistance(p, q)) else front
  }

  // ----- what the grid finds and what it can miss -----

  lemma SquareBound(x: real)
    ensures Square(x) >= 0.0
    ensures Square(x) <= 4.0 ==> -2.0 <= x <= 2.0
  {
    assert x > 2.0 ==> (x - 2.0) * (x + 2.0) > 0.0;
    assert x < -2.0 ==> (x - 2.0) * (x + 2.0) > 0.0;
  }

  lemma FloorsNear(x: real, y: real)
    requires -2.0 <= x - y <= 2.0
    ensures -2 <= x.Floor - y.Floor <= 2
  {
    var m, n := x.Floor, y.Floor;
    assert m as real <= x < m as real + 1.0 && n as real <= y < n as real + 1.0;
    assert (m - n) as real < 3.0 && (n - m) as real < 3.0;
  }

  /** Points within two metres are never outside the block. */
  lemma NearInBlock(p: Vec, q: Vec)
    requires SquaredDistance(p, q) <= 4.0
    ensures InBlock(p, q)
  {
    hide Square;
    SquareBound(p.x - q.x);
    SquareBound(p.y - q.y);
    SquareBound(p.z - q.z);
    FloorsNear(p.x, q.x);
    FloorsNear(p.y, q.y);
    FloorsNear(p.z, q.z);
    assert CellFor(p, CELL_WIDTH_M) == Cell(p.x.Floor, p.y.Floor, p.z.Floor);
    assert CellFor(q, CELL_WIDTH_M) == Cell(q.x.Floor, q.y.Floor, q.z.Floor);
  }

  /** The grid never reports less than the truth, nor more than three metres, and agrees up to two metres. */
  lemma {:induction false} GridBetween(p: Vec, reference: seq<Vec>)
    ensures Nearest(p, reference) <= NearestInBlock(p, reference) <= MAXIMUM_SQUARED
    ensures Nearest(p, reference) <= 4.0 ==> NearestInBlock(p, reference) == Nearest(p, reference)
  {
    hide InBlock, SquaredDistance;
    if reference != [] {
      var q := reference[|reference| - 1];
      GridBetween(p, reference[..|reference| - 1]);
      if SquaredDistance(p, q) <= 4.0 {
        NearInBlock(p, q);
      }
    }
  }

  ghost predicate Attains(p: Vec, q: Vec, d: real) {
    InBlock(p, q) && SquaredDistance(p, q) == d
  }

  lemma {:induction false} GridAttained(p: Vec, reference: seq<Vec>, d: real)
    requires d < MAXIMUM_SQUARED && forall q :: q in reference ==> d <= SquaredDistance(p, q)
    ensures NearestInBlock(p, reference) == d <==> exists q :: q in reference && Attains(p, q, d)
    ensures d <= NearestInBlock(p, reference)
  {
    hide InBlock, SquaredDistance;
    if reference != [] {
      var front, last := reference[..|reference| - 1], reference[|reference| - 1];
      GridAttained(p, front, d);
      assert reference == front + [last];
      assert last in reference;
      if q :| q in reference && Attains(p, q, d) {
        assert q in front || q == last;
      }
    }
  }

  lemma {:induction false} NearestIsLeast(p: Vec, reference: seq<Vec>)
    ensures forall q :: q in reference ==> Nearest(p, reference) <= SquaredDistance(p, q)
    ensures Nearest(p, reference) <= MAXIMUM_SQUARED
    ensures Nearest(p, reference) < MAXIMUM_SQUARED ==>
      exists q :: q in reference && SquaredDistance(p, q) == Nearest(p, reference)
  {
    hide SquaredDistance;
    if reference != [] {
      var front, last := reference[..|reference| - 1], reference[|reference| - 1];
      NearestIsLeast(p, front);
      assert reference == front + [last];
      assert last in reference;
    }
  }

  /** The grid is exact just when nothing is within three metres or a nearest point lies in the block. */
  lemma GridExactIff(p: Vec, reference: seq<Vec>)
    ensures NearestInBlock(p, reference) == Nearest(p, reference) <==>
      Nearest(p, reference) == MAXIMUM_SQUARED
      || exists q :: q in reference && Attains(p, q, Nearest(p, reference))
  {
    hide InBlock, SquaredDistance, Nearest, NearestInBlock;
    NearestIsLeast(p, reference);
    GridBetween(p, reference);
    if Nearest(p, reference) < MAXIMUM_SQUARED {
      GridAttained(p, reference, Nearest(p, reference));
    }
  }

  /** A neighbour 2.1 metres away that the grid misses. */
  lemma NeighbourMissed()
    ensures var p, q := Vec(0.9, 0.0, 0.0), Vec(3.0, 0.0, 0.0);
      Nearest(p, [q]) == 4.41 && NearestInBlock(p, [q]) == 9.0
  {
    var p, q := Vec(0.9, 0.0, 0.0), Vec(3.0, 0.0, 0.0);
    assert [q][..0] == [];
    assert CellFor(p, CELL_WIDTH_M).x == 0 && CellFor(q, CELL_WIDTH_M).x == 3;
    assert SquaredDistance(p, q) == 4.41;
  }

  ghost predicate IsRoot(root: real -> real) {
    forall x :: x >= 0.0 ==> root(x) >= 0.0 && Square(root(x)) == x
  }

  lemma SquareMonotone(a: real, b: real)
    requires a >= 0.0 && b >= 0.0
    ensures Square(a) <= Square(b) <==> a <= b
    ensures Square(a) == Square(b) <==> a == b
  {
    SquareStrict(a, b);
    SquareStrict(b, a);
  }

  lemma SquareStrict(a: real, b: real)
    requires a >= 0.0 && b >= 0.0
    ensures a < b ==> Square(a) < Square(b)
  {
    if a < b {
      var gap := b - a;
      assert gap * gap > 0.0 && a * gap >= 0.0;
      assert Square(b) == Square(a) + 2.0 * (a * gap) + gap * gap;
    }
  }

  lemma RootMonotone(root: real -> real, x: real, y: real)
    requires IsRoot(root) && 0.0 <= x && 0.0 <= y
    ensures x <= y <==> root(x) <= root(y)
  {
    hide Square;
    SquareMonotone(root(x), root(y));
  }

  lemma NearestNonnegative(p: Vec, reference: seq<Vec>)
    ensures 0.0 <= Nearest(p, reference)
  {
    hide Square;
    if q :| q in reference && SquaredDistance(p, q) == Nearest(p, reference) {
      SquareBound(p.x - q.x);
      SquareBound(p.y - q.y);
      SquareBound(p.z - q.z);
    } else {
      NearestIsLeast(p, reference);
      assert MAXIMUM_SQUARED == 9.0;
    }
  }

  /** In metres: between the true distance and three, and the true distance wherever that is at most two. */
  lemma GridDistance(root: real -> real, p: Vec, reference: seq<Vec>)
    requires IsRoot(root)
    ensures root(Nearest(p, reference)) <= root(NearestInBlock(p, reference)) <= 3.0
    ensures root(Nearest(p, reference)) <= 2.0 ==> root(NearestInBlock(p, reference)) == root(Nearest(p, reference))
  {
    hide Nearest, NearestInBlock, Square, IsRoot;
    GridBetween(p, reference);
    NearestNonnegative(p, reference);
    var n, m := Nearest(p, reference), NearestInBlock(p, reference);
    RootMonotone(root, n, m);
    RootMonotone(root, m, 9.0);
    RootMonotone(root, n, 4.0);
    RootOf(root, 9.0, 3.0);
    RootOf(root, 4.0, 2.0);
  }

  lemma RootOf(root: real -> real, x: real, r: real)
    requires IsRoot(root) && r >= 0.0 && r * r == x
    ensures root(x) == r
  {
    assert Square(r) == x && Square(r) >= 0.0;
    SquareMonotone(root(x), r);
  }

  // ----- how far a query point sees -----

  function Fraction(x: real): real { x - x.Floor as real }

  /** Distance along one axis from `x` to the edge of its five cells, the nearer one. */
  function AxisReach(x: real): real { 2.0 + Min(Fraction(x), 1.0 - Fraction(x)) }

  /** Two metres, and the distance from the query to the nearest face of its own cell. */
  function Reach(p: Vec): (r: real)
    ensures 2.0 <= r <= 2.5
  {
    Min(AxisReach(p.x), Min(AxisReach(p.y), AxisReach(p.z)))
  }

  lemma AxisInside(x: real, y: real, r: real)
    requires 0.0 <= r <= AxisReach(x) && Square(x - y) < Square(r)
    ensures -2 <= y.Floor - x.Floor <= 2
  {
    var d := Abs(x - y);
    assert Square(d) == Square(x - y);
    SquareMonotone(r, d);
    hide Square;
    var m, n := x.Floor, y.Floor;
    assert m as real <= x < m as real + 1.0 && n as real <= y < n as real + 1.0;
    assert -3.0 < (n - m) as real < 3.0;
  }

  lemma WithinReach(p: Vec, q: Vec)
    requires SquaredDistance(p, q) < Square(Reach(p))
    ensures InBlock(p, q)
  {
    hide Square, AxisReach;
    SquareBound(p.x - q.x);
    SquareBound(p.y - q.y);
    SquareBound(p.z - q.z);
    AxisInside(p.x, q.x, Reach(p));
    AxisInside(p.y, q.y, Reach(p));
    AxisInside(p.z, q.z, Reach(p));
    assert CellFor(p, CELL_WIDTH_M) == Cell(p.x.Floor, p.y.Floor, p.z.Floor);
    assert CellFor(q, CELL_WIDTH_M) == Cell(q.x.Floor, q.y.Floor, q.z.Floor);
  }

  /** Below the query's reach the grid is exact. */
  lemma ExactWithinReach(p: Vec, reference: seq<Vec>)
    requires Nearest(p, reference) < Square(Reach(p))
    ensures NearestInBlock(p, reference) == Nearest(p, reference)
  {
    hide InBlock, SquaredDistance, Nearest, NearestInBlock, Reach, Square;
    NearestIsLeast(p, reference);
    GridExactIff(p, reference);
    if q :| q in reference && SquaredDistance(p, q) == Nearest(p, reference) {
      WithinReach(p, q);
      assert Attains(p, q, Nearest(p, reference));
    }
  }

  lemma AxisMissed(x: real, d: real) returns (y: real)
    requires AxisReach(x) < d
    ensures Abs(x - y) == d && !(-2 <= y.Floor - x.Floor <= 2)
  {
    y := if Fraction(x) <= 1.0 - Fraction(x) then x - d else x + d;
    var m, n := x.Floor, y.Floor;
    assert m as real <= x < m as real + 1.0 && n as real <= y < n as real + 1.0;
  }

  /** At every distance between the reach and three metres there is a point that the grid misses. */
  lemma MissedBeyondReach(p: Vec, d: real) returns (q: Vec)
    requires Reach(p) < d < MAXIMUM_DISTANCE_M
    ensures Nearest(p, [q]) == d * d && NearestInBlock(p, [q]) == MAXIMUM_SQUARED
  {
    hide AxisReach;
    if AxisReach(p.x) < d {
      var x := AxisMissed(p.x, d);
      q := p.(x := x);
    } else if AxisReach(p.y) < d {
      var y := AxisMissed(p.y, d);
      q := p.(y := y);
    } else {
      var z := AxisMissed(p.z, d);
      q := p.(z := z);
    }
    MissedAlone(p, q, d);
  }

  lemma MissedAlone(p: Vec, q: Vec, d: real)
    requires 0.0 <= d < MAXIMUM_DISTANCE_M && !InBlock(p, q) && SquaredDistance(p, q) == d * d
    ensures Nearest(p, [q]) == d * d && NearestInBlock(p, [q]) == MAXIMUM_SQUARED
  {
    hide InBlock, SquaredDistance;
    SquareStrict(d, MAXIMUM_DISTANCE_M);
    assert [q][..0] == [];
  }

  // ----- the grid loops -----

  /** The grid: every cell that holds reference points, with their indices. */
  ghost predicate IsGrid(reference: seq<Vec>, n: nat, cells: map<Cell, seq<nat>>)
    requires n <= |reference|
  {
    && (forall c, k :: c in cells && 0 <= k < |cells[c]| ==>
        cells[c][k] < n && CellFor(reference[cells[c][k]], CELL_WIDTH_M) == c)
    && forall i :: 0 <= i < n ==>
      CellFor(reference[i], CELL_WIDTH_M) in cells && i in cells[CellFor(reference[i], CELL_WIDTH_M)]
  }

  method BuildGrid(reference: seq<Vec>) returns (cells: map<Cell, seq<nat>>)
    ensures IsGrid(reference, |reference|, cells)
  {
    hide CellFor;
    cells := map[];
    for index := 0 to |reference|
      invariant IsGrid(reference, index, cells)
    {
      var c := CellFor(reference[index], CELL_WIDTH_M);
      var held := if c in cells then cells[c] else [];
      cells := cells[c := held + [index]];
    }
  }

  /** `after` is the least of `before` and the squared distances to the points whose cells lie in the box. */
  ghost predicate Scanned(p: Vec, reference: seq<Vec>, before: real, after: real, low: Cell, high: Cell) {
    && after <= before
    && (forall i :: 0 <= i < |reference| && InBox(CellFor(reference[i], CELL_WIDTH_M), low, high) ==>
        after <= SquaredDistance(p, reference[i]))
    && (after == before || exists i :: 0 <= i < |reference| && InBox(CellFor(reference[i], CELL_WIDTH_M), low, high)
                                       && after == SquaredDistance(p, reference[i]))
  }

  /** Two boxes that make up a third. */
  lemma ScannedTogether(p: Vec, reference: seq<Vec>, a: real, b: real, c: real,
                        low: Cell, high: Cell, low': Cell, high': Cell, all: Cell, all': Cell)
    requires Scanned(p, reference, a, b, low, high) && Scanned(p, reference, b, c, low', high')
    requires forall x :: InBox(x, all, all') <==> InBox(x, low, high) || InBox(x, low', high')
    ensures Scanned(p, reference, a, c, all, all')
  {
    hide SquaredDistance, CellFor, InBox;
  }

  method ScanCell(p: Vec, reference: seq<Vec>, cells: map<Cell, seq<nat>>, c: Cell, before: real) returns (after: real)
    requires IsGrid(reference, |reference|, cells)
    ensures Scanned(p, reference, before, after, c, c)
  {
    hide SquaredDistance, CellFor;
    after := before;
    if c !in cells {
      return;
    }
    for k := 0 to |cells[c]|
      invariant after <= before
      invariant forall j :: 0 <= j < k ==> after <= SquaredDistance(p, reference[cells[c][j]])
      invariant after == before || exists j :: 0 <= j < k && after == SquaredDistance(p, reference[cells[c][j]])
    {
      after := Min(after, SquaredDistance(p, reference[cells[c][k]]));
    }
  }

  method ScanColumn(p: Vec, reference: seq<Vec>, cells: map<Cell, seq<nat>>, c: Cell, before: real)
    returns (after: real)
    requires IsGrid(reference, |reference|, cells)
    ensures Scanned(p, reference, before, after, c.(z := c.z - CELL_RADIUS), c.(z := c.z + CELL_RADIUS))
  {
    hide Scanned, CellFor, IsGrid;
    after := before;
    var low := c.(z := c.z - CELL_RADIUS);
    NothingScanned(p, reference, before, low, low.(z := low.z - 1));
    for dz := -CELL_RADIUS to CELL_RADIUS + 1
      invariant Scanned(p, reference, before, after, low, c.(z := c.z + dz - 1))
    {
      var here := c.(z := c.z + dz);
      var next := ScanCell(p, reference, cells, here, after);
      ScannedTogether(p, reference, before, after, next, low, c.(z := c.z + dz - 1), here, here, low, here);
      after := next;
    }
  }

  lemma NothingScanned(p: Vec, reference: seq<Vec>, d: real, low: Cell, high: Cell)
    requires high.x < low.x || high.y < low.y || high.z < low.z
    ensures Scanned(p, reference, d, d, low, high)
  {
  }

  method ScanSlab(p: Vec, reference: seq<Vec>, cells: map<Cell, seq<nat>>, c: Cell, before: real) returns (after: real)
    requires IsGrid(reference, |reference|, cells)
    ensures Scanned(p, reference, before, after, Cell(c.x, c.y - CELL_RADIUS, c.z - CELL_RADIUS),
                    Cell(c.x, c.y + CELL_RADIUS, c.z + CELL_RADIUS))
  {
    hide Scanned, CellFor, IsGrid;
    after := before;
    var low, top := Cell(c.x, c.y - CELL_RADIUS, c.z - CELL_RADIUS), c.z + CELL_RADIUS;
    NothingScanned(p, reference, before, low, Cell(c.x, low.y - 1, top));
    for dy := -CELL_RADIUS to CELL_RADIUS + 1
      invariant Scanned(p, reference, before, after, low, Cell(c.x, c.y + dy - 1, top))
    {
      var here := c.(y := c.y + dy);
      var next := ScanColumn(p, reference, cells, here, after);
      ScannedTogether(p, reference, before, after, next, low, Cell(c.x, c.y + dy - 1, top),
                      here.(z := low.z), here.(z := top), low, here.(z := top));
      after := next;
    }
  }

  method ScanBlock(p: Vec, reference: seq<Vec>, cells: map<Cell, seq<nat>>) returns (nearest: real)
    requires IsGrid(reference, |reference|, cells)
    ensures nearest == NearestInBlock(p, reference)
  {
    hide Scanned, CellFor, IsGrid, NearestInBlock;
    var c := CellFor(p, CELL_WIDTH_M);
    nearest := MAXIMUM_SQUARED;
    var low := Cell(c.x - CELL_RADIUS, c.y - CELL_RADIUS, c.z - CELL_RADIUS);
    var top := Cell(c.x + CELL_RADIUS, c.y + CELL_RADIUS, c.z + CELL_RADIUS);
    NothingScanned(p, reference, nearest, low, top.(x := low.x - 1));
    for dx := -CELL_RADIUS to CELL_RADIUS + 1
      invariant Scanned(p, reference, MAXIMUM_SQUARED, nearest, low, top.(x := c.x + dx - 1))
    {
      var here := c.(x := c.x + dx);
      var next := ScanSlab(p, reference, cells, here, nearest);
      ScannedTogether(p, reference, MAXIMUM_SQUARED, nearest, next, low, top.(x := c.x + dx - 1),
                      low.(x := here.x), top.(x := here.x), low, top.(x := here.x));
      nearest := next;
    }
    BlockScanned(p, reference, nearest);
  }

  lemma {:induction false} BlockLeast(p: Vec, reference: seq<Vec>)
    ensures NearestInBlock(p, reference) <= MAXIMUM_SQUARED
    ensures forall i :: 0 <= i < |reference| && InBlock(p, reference[i]) ==>
      NearestInBlock(p, reference) <= SquaredDistance(p, reference[i])
    ensures NearestInBlock(p, reference) == MAXIMUM_SQUARED || exists i ::
      0 <= i < |reference| && InBlock(p, reference[i]) &&
      NearestInBlock(p, reference) == SquaredDistance(p, reference[i])
  {
    hide InBlock, SquaredDistance;
    if reference != [] {
      BlockLeast(p, reference[..|reference| - 1]);
    }
  }

  lemma BlockScanned(p: Vec, reference: seq<Vec>, d: real)
    requires var c := CellFor(p, CELL_WIDTH_M);
      Scanned(p, reference, MAXIMUM_SQUARED, d, Cell(c.x - CELL_RADIUS, c.y - CELL_RADIUS, c.z - CELL_RADIUS),
              Cell(c.x + CELL_RADIUS, c.y + CELL_RADIUS, c.z + CELL_RADIUS))
    ensures d == NearestInBlock(p, reference)
  {
    hide SquaredDistance, CellFor, NearestInBlock, InBox;
    BlockLeast(p, reference);
  }

  ghost function RootSum(root: real -> real, query: seq<Vec>, reference: seq<Vec>, n: nat): real
    requires n <= |query|
  {
    if n == 0 then 0.0 else RootSum(root, query, reference, n - 1) + root(NearestInBlock(query[n - 1], reference))
  }

  /** `d` is the distance from `p` to the nearest reference point, or three metres if none is nearer. */
  ghost predicate IsDistance(p: Vec, reference: seq<Vec>, d: real) {
    && 0.0 <= d <= 3.0
    && (d == 3.0 || exists q :: q in reference && Apart(p, q, d))
    && forall q :: q in reference ==>
         d * d <= (p.x - q.x) * (p.x - q.x) + (p.y - q.y) * (p.y - q.y) + (p.z - q.z) * (p.z - q.z)
  }

  ghost predicate Apart(p: Vec, q: Vec, d: real) {
    d * d == (p.x - q.x) * (p.x - q.x) + (p.y - q.y) * (p.y - q.y) + (p.z - q.z) * (p.z - q.z)
  }

  lemma ApartIs(p: Vec, q: Vec, d: real)
    ensures SquaredDistance(p, q) ==
            (p.x - q.x) * (p.x - q.x) + (p.y - q.y) * (p.y - q.y) + (p.z - q.z) * (p.z - q.z)
    ensures Apart(p, q, d) <==> Square(d) == SquaredDistance(p, q)
  {
  }

  lemma DistanceSquared(p: Vec, reference: seq<Vec>, d: real)
    requires IsDistance(p, reference, d)
    ensures Square(d) == Nearest(p, reference)
  {
    hide Nearest, SquaredDistance, Square, Apart;
    NearestIsLeast(p, reference);
    SquareMonotone(d, 3.0);
    assert Square(3.0) == MAXIMUM_SQUARED by { ThreeSquared(); }
    forall q | q in reference ensures Square(d) <= SquaredDistance(p, q) {
      ApartIs(p, q, d);
      SquareIs(d);
    }
    if d != 3.0 {
      var q :| q in reference && Apart(p, q, d);
      ApartIs(p, q, d);
    }
  }

  lemma ThreeSquared()
    ensures Square(3.0) == MAXIMUM_SQUARED
  {
  }

  lemma SquareIs(d: real)
    ensures Square(d) == d * d
  {
  }

  lemma DistanceIsRoot(root: real -> real, p: Vec, reference: seq<Vec>, d: real)
    requires IsRoot(root) && IsDistance(p, reference, d)
    ensures d == root(Nearest(p, reference))
  {
    hide IsRoot, Nearest;
    DistanceSquared(p, reference, d);
    SquareIs(d);
    RootOf(root, Nearest(p, reference), d);
  }

  function Sum(values: seq<real>): real {
    if values == [] then 0.0 else Sum(values[..|values| - 1]) + values[|values| - 1]
  }

  /** The sum of the grid distances is no less than that of the true ones, at most three metres for each query point,
      and exact when all true distances are at most two metres. */
  lemma {:induction false} SumMeaning(root: real -> real, query: seq<Vec>, reference: seq<Vec>, truth: seq<real>)
    requires IsRoot(root) && |truth| <= |query|
    requires forall i :: 0 <= i < |truth| ==> IsDistance(query[i], reference, truth[i])
    ensures var sum := RootSum(root, query, reference, |truth|);
            && Sum(truth) <= sum <= 3.0 * |truth| as real
            && ((forall i :: 0 <= i < |truth| ==> truth[i] <= 2.0) ==> sum == Sum(truth))
  {
    hide IsRoot, IsDistance;
    if truth != [] {
      var n := |truth| - 1;
      SumMeaning(root, query, reference, truth[..n]);
      DistanceIsRoot(root, query[n], reference, truth[n]);
      GridDistance(root, query[n], reference);
    }
  }

  /** Mean grid distance from the query points to the reference; the mean of no points is not a number. */
  method OneWayNearestMean(root: real -> real, query: seq<Vec>, reference: seq<Vec>) returns (mean: Option<real>)
    ensures mean == if query == [] then None else Some(RootSum(root, query, reference, |query|) / |query| as real)
  {
    hide IsGrid, NearestInBlock;
    var cells := BuildGrid(reference);
    var sum := 0.0;
    for n := 0 to |query|
      invariant sum == RootSum(root, query, reference, n)
    {
      var nearest := ScanBlock(query[n], reference, cells);
      sum := sum + root(nearest);
    }
    if query == [] {
      return None;
    }
    return Some(sum / |query| as real);
  }
}
