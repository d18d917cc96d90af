/** Sizes of finite sets of integers. */
module FiniteSets {

  /** The integers t with a <= t < b. */
  ghost function Span(a: int, b: int): (r: set<int>)
    ensures forall t :: t in r <==> a <= t < b
    ensures |r| == if a < b then b - a else 0
    decreases b - a
  {
    if a >= b then {} else Span(a, b - 1) + {b - 1}
  }

  lemma SubsetSize<T>(a: set<T>, b: set<T>)
    requires a <= b
    ensures |a| <= |b|
  {
    assert b == a + (b - a);
  }
}
