/** Contract of std::sort for a strict weak ordering. */
module Sorting {

  ghost predicate StrictWeak<T(!new)>(less: (T, T) -> bool) {
    && (forall x :: !less(x, x))
    && (forall x, y, z :: less(x, y) && less(y, z) ==> less(x, z))
    && (forall x, y, z :: less(x, z) ==> less(x, y) || less(y, z))
  }

  ghost predicate Sorted<T>(less: (T, T) -> bool, s: seq<T>) {
    forall i, j :: 0 <= i < j < |s| ==> !less(s[j], s[i])
  }

  ghost predicate NoDuplicates<T>(s: seq<T>) {
    forall i, j :: 0 <= i < j < |s| ==> s[i] != s[j]
  }

  method Insert<T(!new)>(less: (T, T) -> bool, s: seq<T>, x: T) returns (r: seq<T>)
    requires StrictWeak(less) && Sorted(less, s)
    ensures Sorted(less, r) && multiset(r) == multiset(s) + multiset{x}
  {
    var i := 0;
    while i < |s| && !less(x, s[i])
      invariant 0 <= i <= |s|
      invariant forall j :: 0 <= j < i ==> !less(x, s[j])
    {
      i := i + 1;
    }
    r := s[..i] + [x] + s[i..];
    assert s == s[..i] + s[i..];
    InsertSorted(less, s, x, i);
  }

  lemma InsertSorted<T(!new)>(less: (T, T) -> bool, s: seq<T>, x: T, i: nat)
    requires StrictWeak(less) && Sorted(less, s) && i <= |s|
    requires forall j :: 0 <= j < i ==> !less(x, s[j])
    requires i < |s| ==> less(x, s[i])
    ensures Sorted(less, s[..i] + [x] + s[i..])
  {
    forall j | i <= j < |s| ensures !less(s[j], x) {
      assert !less(s[j], s[i]);
    }
  }

  method Sort<T(!new)>(less: (T, T) -> bool, s: seq<T>) returns (r: seq<T>)
    requires StrictWeak(less)
    ensures Sorted(less, r) && multiset(r) == multiset(s) && |r| == |s|
    ensures forall x :: x in r <==> x in s
  {
    r := [];
    for i := 0 to |s|
      invariant Sorted(less, r) && multiset(r) == multiset(s[..i])
    {
      r := Insert(less, r, s[i]);
      assert s[..i + 1] == s[..i] + [s[i]];
    }
    assert s[..|s|] == s;
    PermutationFacts(r, s);
  }

  lemma PermutationFacts<T>(r: seq<T>, s: seq<T>)
    requires multiset(r) == multiset(s)
    ensures |r| == |s|
    ensures forall x :: x in r <==> x in s
  {
    assert |multiset(r)| == |r| && |multiset(s)| == |s|;
    forall x ensures x in r <==> x in s {
      assert x in r <==> x in multiset(r);
      assert x in s <==> x in multiset(s);
    }
  }

  lemma {:induction false} NoDuplicatesCounts<T>(s: seq<T>, x: T)
    requires NoDuplicates(s)
    ensures multiset(s)[x] <= 1
  {
    if s != [] {
      var n := |s| - 1;
      NoDuplicatesCounts(s[..n], x);
      assert s == s[..n] + [s[n]];
      assert s[n] !in s[..n];
    }
  }

  lemma PermutationNoDuplicates<T>(r: seq<T>, s: seq<T>)
    requires multiset(r) == multiset(s) && NoDuplicates(s)
    ensures NoDuplicates(r)
  {
    forall i, j | 0 <= i < j < |r| ensures r[i] != r[j] {
      NoDuplicatesCounts(s, r[j]);
      assert r == r[..j] + [r[j]] + r[j + 1..];
      assert r[i] == r[..j][i] && r[i] in r[..j];
    }
  }

  ghost predicate Comparable<T>(less: (T, T) -> bool, s: seq<T>) {
    forall x, y :: x in s && y in s && x != y ==> less(x, y) || less(y, x)
  }

  lemma SameLeast<T(!new)>(less: (T, T) -> bool, r: seq<T>, s: seq<T>)
    requires Sorted(less, r) && Sorted(less, s) && Comparable(less, r)
    requires r != [] && s != [] && r[0] in s && s[0] in r
    ensures r[0] == s[0]
  {
    var i :| 0 <= i < |r| && r[i] == s[0];
    var j :| 0 <= j < |s| && s[j] == r[0];
    assert i > 0 ==> !less(r[i], r[0]);
    assert j > 0 ==> !less(s[j], s[0]);
  }

  /** A list whose distinct elements are ordered has one sorted permutation. */
  lemma {:induction false} SortedUnique<T(!new)>(less: (T, T) -> bool, r: seq<T>, s: seq<T>)
    requires Sorted(less, r) && Sorted(less, s) && multiset(r) == multiset(s) && Comparable(less, r)
    ensures r == s
  {
    hide Sorted, Comparable;
    PermutationFacts(r, s);
    if r != [] {
      SameLeast(less, r, s);
      assert r == [r[0]] + r[1..] && s == [s[0]] + s[1..];
      assert multiset(r[1..]) == multiset(r) - multiset{r[0]} && multiset(s[1..]) == multiset(s) - multiset{s[0]};
      SortedTail(less, r);
      SortedTail(less, s);
      SortedUnique(less, r[1..], s[1..]);
    }
  }

  lemma SortedTail<T(!new)>(less: (T, T) -> bool, r: seq<T>)
    requires r != []
    ensures Sorted(less, r) ==> Sorted(less, r[1..])
    ensures Comparable(less, r) ==> Comparable(less, r[1..])
  {
  }

  lemma MultisetInsert<T>(a: seq<T>, x: T, b: seq<T>)
    ensures multiset(a + [x] + b) == multiset(a + b) + multiset{x}
  {
    assert a + [x] + b == (a + [x]) + b;
    assert multiset(a + [x] + b) == multiset(a) + multiset{x} + multiset(b);
  }

  lemma {:induction false} SortedExists<T(!new)>(less: (T, T) -> bool, s: seq<T>) returns (r: seq<T>)
    requires StrictWeak(less)
    ensures Sorted(less, r) && multiset(r) == multiset(s)
  {
    hide StrictWeak;
    if s == [] {
      r := [];
    } else {
      var front, x := s[..|s| - 1], s[|s| - 1];
      var sorted := SortedExists(less, front);
      var i := 0;
      while i < |sorted| && !less(x, sorted[i])
        invariant i <= |sorted| && forall j :: 0 <= j < i ==> !less(x, sorted[j])
      {
        i := i + 1;
      }
      InsertSorted(less, sorted, x, i);
      var before, after := sorted[..i], sorted[i..];
      r := before + [x] + after;
      assert sorted == before + after && s == front + [x] + [] && front + [] == front;
      MultisetInsert(before, x, after);
      MultisetInsert(front, x, []);
    }
  }

  /** Where the last element of one permutation stands in another. */
  lemma RemoveOne<T>(a: seq<T>, b: seq<T>) returns (k: nat)
    requires multiset(a) == multiset(b) && a != []
    ensures k < |b| && b[k] == a[|a| - 1]
    ensures multiset(a[..|a| - 1]) == multiset(b[..k] + b[k + 1..])
  {
    var front, x := a[..|a| - 1], a[|a| - 1];
    PermutationFacts(a, b);
    assert x in b;
    k :| 0 <= k < |b| && b[k] == x;
    var before, after := b[..k], b[k + 1..];
    assert a == front + [x] + [] && b == before + [x] + after && front + [] == front;
    MultisetInsert(front, x, []);
    MultisetInsert(before, x, after);
    SameRemainder(multiset(front), multiset(before + after), x);
  }

  lemma SameRemainder<T>(a: multiset<T>, b: multiset<T>, x: T)
    requires a + multiset{x} == b + multiset{x}
    ensures a == b
  {
    assert a == a + multiset{x} - multiset{x} && b == b + multiset{x} - multiset{x};
  }
}
