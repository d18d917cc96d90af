/** The longest blank arc of a ring of cells (`_maximum_circular_blank_bins`). */
module BlankSector {
  import opened Numbers

  /** The cell at position `i` of the unrolled ring. */
  function Cell(ring: seq<nat>, i: nat): nat
    requires ring != []
  {
    ring[i % |ring|]
  }

  ghost predicate Blank(ring: seq<nat>, from: nat, end: nat)
    requires ring != []
  {
    forall i :: from <= i < end ==> Cell(ring, i) == 0
  }

  /** Blank cells in a row that end just before position `k`. */
  ghost function Trailing(ring: seq<nat>, k: nat): (n: nat)
    requires ring != []
    ensures n <= k
  {
    if k == 0 || Cell(ring, k - 1) != 0 then 0 else Trailing(ring, k - 1) + 1
  }

  lemma {:induction false} TrailingBlank(ring: seq<nat>, k: nat)
    requires ring != []
    ensures Blank(ring, k - Trailing(ring, k), k)
  {
    hide Cell;
    if k > 0 {
      TrailingBlank(ring, k - 1);
    }
  }

  lemma {:induction false} TrailingLongest(ring: seq<nat>, from: nat, k: nat)
    requires ring != [] && from <= k && Blank(ring, from, k)
    ensures k - from <= Trailing(ring, k)
  {
    hide Cell;
    if from < k {
      TrailingLongest(ring, from, k - 1);
    }
  }

  lemma SmallMultiple(d: int, n: int)
    requires -n < d * n < n
    ensures d == 0
  {
    assert d >= 1 ==> (d - 1) * n >= 0;
    assert d <= -1 ==> (-1 - d) * n >= 0;
  }

  lemma ModUnique(a: int, n: nat, q: int, r: nat)
    requires n > 0 && r < n && a == q * n + r
    ensures a % n == r
  {
    var p, m := a / n, a % n;
    assert a == p * n + m;
    assert (p - q) * n == r - m;
    SmallMultiple(p - q, n);
  }

  lemma CellTurn(ring: seq<nat>, i: nat)
    requires ring != []
    ensures Cell(ring, i + |ring|) == Cell(ring, i)
  {
    ModUnique(i + |ring|, |ring|, i / |ring| + 1, i % |ring|);
  }

  /** An arc as long as the ring covers it. */
  lemma {:induction false} WholeTurn(ring: seq<nat>, from: nat)
    requires ring != [] && Blank(ring, from, from + |ring|)
    ensures Blank(ring, 0, |ring|)
    decreases from
  {
    hide Cell;
    if from > 0 {
      CellTurn(ring, from - 1);
      assert Cell(ring, from - 1 + |ring|) == 0;
      WholeTurn(ring, from - 1);
    }
  }

  lemma CellIs(ring: seq<nat>, i: nat)
    requires ring != [] && i < 2 * |ring|
    ensures Cell(ring, i) == (ring + ring)[i]
  {
    if i < |ring| {
      ModUnique(i, |ring|, 0, i);
    } else {
      ModUnique(i, |ring|, 1, i - |ring|);
    }
  }

  lemma NeverWhole(ring: seq<nat>, k: nat, c: nat)
    requires c < |ring| && ring[c] != 0
    ensures Trailing(ring, k) < |ring|
  {
    hide Trailing;
    var n := Trailing(ring, k);
    TrailingBlank(ring, k);
    CellIs(ring, c);
    if n >= |ring| {
      WholeTurn(ring, k - n);
      assert false;
    }
  }

  /** `n` blank cells in a row from cell `from`. */
  ghost predicate Arc(ring: seq<nat>, from: int, n: int)
    requires ring != []
  {
    0 <= from && 0 <= n && Blank(ring, from, from + n)
  }

  /** An arc starts within the first turn. */
  lemma {:induction false} ArcReduced(ring: seq<nat>, from: nat, n: nat) returns (start: nat)
    requires ring != [] && Arc(ring, from, n)
    ensures start < |ring| && Arc(ring, start, n)
  {
    hide Cell;
    if from < |ring| {
      start := from;
    } else {
      forall i | from - |ring| <= i < from - |ring| + n ensures Cell(ring, i) == 0 {
        CellTurn(ring, i);
        assert Cell(ring, i + |ring|) == 0;
      }
      start := ArcReduced(ring, from - |ring|, n);
    }
  }

  /** `longest` is the length of some blank arc, and no arc of at most one turn is longer. */
  ghost predicate LongestArc(ring: seq<nat>, longest: nat)
    requires ring != []
  {
    && longest <= |ring|
    && (exists start {:trigger Arc(ring, start, longest)} :: start < |ring| && Arc(ring, start, longest))
    && forall from, n {:trigger Arc(ring, from, n)} :: from < |ring| && n <= |ring| && Arc(ring, from, n) ==>
         n <= longest
  }

  lemma LongestFound(ring: seq<nat>, longest: nat, start: nat)
    requires ring != [] && longest <= |ring| && Arc(ring, start, longest)
    requires forall k :: 0 <= k <= 2 * |ring| ==> Trailing(ring, k) <= longest
    ensures LongestArc(ring, longest)
  {
    hide Cell, Trailing, Blank;
    var from := ArcReduced(ring, start, longest);
    forall from, n | from < |ring| && n <= |ring| && Arc(ring, from, n) ensures n <= longest {
      TrailingLongest(ring, from, from + n);
    }
  }

  lemma AllBlank(ring: seq<nat>)
    requires ring != [] && forall i :: 0 <= i < |ring| ==> ring[i] == 0
    ensures LongestArc(ring, |ring|)
  {
    forall i | 0 <= i < |ring| ensures Cell(ring, i) == 0 {
      CellIs(ring, i);
    }
    assert Arc(ring, 0, |ring|);
  }

  /** One pass over two turns of the ring finds the longest arc, wherever it wraps. */
  method MaximumCircularBlank(counts: seq<nat>) returns (longest: nat)
    ensures if counts == [] then longest == 0 else LongestArc(counts, longest)
  {
    hide Trailing, Cell, Blank, LongestArc, Arc;
    if counts == [] {
      return 0;
    }
    if forall i | 0 <= i < |counts| :: counts[i] == 0 {
      AllBlank(counts);
      return |counts|;
    }
    ghost var c :| 0 <= c < |counts| && counts[c] != 0;
    var doubled := counts + counts;
    var current := 0;
    ghost var end := 0;
    longest := 0;
    NoneTrailing(counts);
    for k := 0 to |doubled|
      invariant current == Trailing(counts, k)
      invariant end <= k && longest == Trailing(counts, end)
      invariant forall j :: 0 <= j <= k ==> Trailing(counts, j) <= longest
    {
      CellIs(counts, k);
      TrailingStep(counts, k);
      if doubled[k] == 0 {
        current := current + 1;
        if current > longest {
          longest := current;
          end := k + 1;
        }
      } else {
        current := 0;
      }
    }
    NeverWhole(counts, end, c);
    ArcBefore(counts, end);
    LongestFound(counts, longest, end - longest);
    longest := MinNat(longest, |counts|);
  }

  lemma ArcBefore(ring: seq<nat>, k: nat)
    requires ring != []
    ensures Arc(ring, k - Trailing(ring, k), Trailing(ring, k))
  {
    TrailingBlank(ring, k);
  }

  lemma NoneTrailing(ring: seq<nat>)
    requires ring != []
    ensures Trailing(ring, 0) == 0
  {
  }

  lemma TrailingStep(ring: seq<nat>, k: nat)
    requires ring != []
    ensures Trailing(ring, k + 1) == if Cell(ring, k) == 0 then Trailing(ring, k) + 1 else 0
  {
  }
}
