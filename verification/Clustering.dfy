/** First-fit complete-link clustering (`mine_repeated_topology_disagreements`). */
module Clustering {
  import opened Wrappers
  import opened Sorting

  /** `x` fits every member. */
  ghost predicate FitsAll<T>(fits: (T, T) -> bool, x: T, members: seq<T>) {
    forall i :: 0 <= i < |members| ==> fits(x, members[i])
  }

  /** Put `x` into the first cluster that it fits completely, else into a new one. */
  ghost function Place<T>(fits: (T, T) -> bool, clusters: seq<seq<T>>, x: T): seq<seq<T>> {
    if clusters == [] then [[x]]
    else if FitsAll(fits, x, clusters[0]) then [clusters[0] + [x]] + clusters[1..]
    else [clusters[0]] + Place(fits, clusters[1..], x)
  }

  /** Clusters of a list, built front to back. */
  ghost function FirstFit<T>(fits: (T, T) -> bool, items: seq<T>): seq<seq<T>> {
    if items == [] then [] else Place(fits, FirstFit(fits, items[..|items| - 1]), items[|items| - 1])
  }

  ghost function Flatten<T>(clusters: seq<seq<T>>): seq<T> {
    if clusters == [] then [] else clusters[0] + Flatten(clusters[1..])
  }

  // ----- partition -----

  lemma {:induction false} PlaceKeepsItems<T>(fits: (T, T) -> bool, clusters: seq<seq<T>>, x: T)
    ensures multiset(Flatten(Place(fits, clusters, x))) == multiset(Flatten(clusters)) + multiset{x}
  {
    var placed := Place(fits, clusters, x);
    if clusters == [] {
      assert placed[1..] == [];
      assert Flatten(placed) == [x];
    } else if FitsAll(fits, x, clusters[0]) {
      assert placed[1..] == clusters[1..];
    } else {
      PlaceKeepsItems(fits, clusters[1..], x);
      assert placed[1..] == Place(fits, clusters[1..], x);
    }
  }

  /** Every item is in exactly one cluster. */
  lemma {:induction false} FirstFitPartitions<T>(fits: (T, T) -> bool, items: seq<T>)
    ensures multiset(Flatten(FirstFit(fits, items))) == multiset(items)
  {
    hide Place, FitsAll;
    if items != [] {
      var front, x := items[..|items| - 1], items[|items| - 1];
      FirstFitPartitions(fits, front);
      PlaceKeepsItems(fits, FirstFit(fits, front), x);
      assert items == front + [x];
    }
  }

  // ----- complete link -----

  ghost predicate CompleteLink<T>(fits: (T, T) -> bool, members: seq<T>) {
    members != [] && forall i, j :: 0 <= i < j < |members| ==> fits(members[j], members[i])
  }

  ghost predicate AllLinked<T>(fits: (T, T) -> bool, clusters: seq<seq<T>>) {
    forall c :: 0 <= c < |clusters| ==> CompleteLink(fits, clusters[c])
  }

  lemma {:induction false} PlaceLinked<T>(fits: (T, T) -> bool, clusters: seq<seq<T>>, x: T)
    requires AllLinked(fits, clusters)
    ensures AllLinked(fits, Place(fits, clusters, x))
  {
    if clusters != [] {
      assert CompleteLink(fits, clusters[0]);
      forall c | 0 <= c < |clusters| - 1 ensures CompleteLink(fits, clusters[1..][c]) {
        assert CompleteLink(fits, clusters[c + 1]);
      }
      if !FitsAll(fits, x, clusters[0]) {
        PlaceLinked(fits, clusters[1..], x);
      }
    }
  }

  ghost predicate Symmetric<T(!new)>(fits: (T, T) -> bool) {
    forall x, y :: fits(x, y) == fits(y, x)
  }

  ghost predicate MutuallyFit<T>(fits: (T, T) -> bool, members: seq<T>) {
    forall i, j :: 0 <= i < |members| && 0 <= j < |members| && i != j ==> fits(members[i], members[j])
  }

  /** Any two members of one cluster are compatible. */
  lemma {:induction false} FirstFitLinked<T(!new)>(fits: (T, T) -> bool, items: seq<T>)
    requires Symmetric(fits)
    ensures AllLinked(fits, FirstFit(fits, items))
    ensures forall c :: 0 <= c < |FirstFit(fits, items)| ==> MutuallyFit(fits, FirstFit(fits, items)[c])
  {
    LinkedInduction(fits, items);
    var clusters := FirstFit(fits, items);
    forall c | 0 <= c < |clusters| ensures MutuallyFit(fits, clusters[c]) {
      assert CompleteLink(fits, clusters[c]);
    }
  }

  lemma {:induction false} LinkedInduction<T>(fits: (T, T) -> bool, items: seq<T>)
    ensures AllLinked(fits, FirstFit(fits, items))
  {
    if items != [] {
      LinkedInduction(fits, items[..|items| - 1]);
      PlaceLinked(fits, FirstFit(fits, items[..|items| - 1]), items[|items| - 1]);
    }
  }

  // ----- first fit -----

  /** Some occurrence of `x` comes before one of `y`. */
  ghost predicate Before<T>(items: seq<T>, x: T, y: T) {
    exists i, j :: 0 <= i < j < |items| && items[i] == x && items[j] == y
  }

  ghost predicate RefusedEarlier<T>(fits: (T, T) -> bool, items: seq<T>, earlier: seq<T>, x: T) {
    exists m :: 0 <= m < |earlier| && Before(items, earlier[m], x) && !fits(x, earlier[m])
  }

  ghost predicate AllRefused<T>(fits: (T, T) -> bool, items: seq<T>, earlier: seq<T>, later: seq<T>) {
    forall i :: 0 <= i < |later| ==> RefusedEarlier(fits, items, earlier, later[i])
  }

  /** Each member of a later cluster was refused, when it came, by some member of every earlier cluster. */
  ghost predicate Refused<T>(fits: (T, T) -> bool, items: seq<T>, clusters: seq<seq<T>>) {
    forall b, c :: 0 <= b < c < |clusters| ==> AllRefused(fits, items, clusters[b], clusters[c])
  }

  /** Clusters list their members in the order in which they came. */
  ghost predicate MembersInOrder<T>(items: seq<T>, clusters: seq<seq<T>>) {
    forall c :: 0 <= c < |clusters| ==> InOrderOf(items, clusters[c])
  }

  ghost predicate InOrderOf<T>(items: seq<T>, members: seq<T>) {
    forall i, j :: 0 <= i < j < |members| ==> Before(items, members[i], members[j])
  }

  /** Which cluster a placement changed. */
  lemma {:induction false} PlaceShape<T>(fits: (T, T) -> bool, clusters: seq<seq<T>>, x: T) returns (k: nat)
    ensures k <= |clusters| && forall b :: 0 <= b < k ==> !FitsAll(fits, x, clusters[b])
    ensures k < |clusters| ==> FitsAll(fits, x, clusters[k])
    ensures k < |clusters| ==> Place(fits, clusters, x) == clusters[k := clusters[k] + [x]]
    ensures k == |clusters| ==> Place(fits, clusters, x) == clusters + [[x]]
  {
    if clusters == [] || FitsAll(fits, x, clusters[0]) {
      k := 0;
    } else {
      k := PlaceShape(fits, clusters[1..], x);
      k := k + 1;
    }
  }

  ghost predicate MembersOf<T>(items: seq<T>, clusters: seq<seq<T>>) {
    forall c :: 0 <= c < |clusters| ==> forall i :: 0 <= i < |clusters[c]| ==> clusters[c][i] in items
  }

  lemma BeforeLonger<T>(items: seq<T>, last: T, x: T, y: T)
    ensures Before(items, x, y) ==> Before(items + [last], x, y)
    ensures x in items ==> Before(items + [last], x, last)
  {
    if Before(items, x, y) {
      var i, j :| 0 <= i < j < |items| && items[i] == x && items[j] == y;
      assert (items + [last])[i] == x && (items + [last])[j] == y;
    }
    if x in items {
      var i :| 0 <= i < |items| && items[i] == x;
      assert (items + [last])[i] == x && (items + [last])[|items|] == last;
    }
  }

  lemma RefusedLonger<T>(fits: (T, T) -> bool, items: seq<T>, last: T, few: seq<T>, many: seq<T>, x: T)
    requires RefusedEarlier(fits, items, few, x) && few <= many
    ensures RefusedEarlier(fits, items + [last], many, x)
  {
    var m :| 0 <= m < |few| && Before(items, few[m], x) && !fits(x, few[m]);
    BeforeLonger(items, last, few[m], x);
    assert many[m] == few[m];
  }

  lemma LastRefused<T>(fits: (T, T) -> bool, items: seq<T>, last: T, earlier: seq<T>)
    requires !FitsAll(fits, last, earlier) && forall i :: 0 <= i < |earlier| ==> earlier[i] in items
    ensures RefusedEarlier(fits, items + [last], earlier, last)
  {
    var m :| 0 <= m < |earlier| && !fits(last, earlier[m]);
    BeforeLonger(items, last, earlier[m], last);
  }

  lemma PlaceRefused<T>(fits: (T, T) -> bool, items: seq<T>, clusters: seq<seq<T>>, x: T)
    requires Refused(fits, items, clusters) && MembersOf(items, clusters)
    ensures Refused(fits, items + [x], Place(fits, clusters, x))
  {
    hide RefusedEarlier, FitsAll;
    var k := PlaceShape(fits, clusters, x);
    var placed := Place(fits, clusters, x);
    forall b, c | 0 <= b < c < |placed| ensures AllRefused(fits, items + [x], placed[b], placed[c]) {
      forall i | 0 <= i < |placed[c]| ensures RefusedEarlier(fits, items + [x], placed[b], placed[c][i]) {
        if c < |clusters| && i < |clusters[c]| {
          assert AllRefused(fits, items, clusters[b], clusters[c]);
          RefusedLonger(fits, items, x, clusters[b], placed[b], placed[c][i]);
        } else {
          LastRefused(fits, items, x, clusters[b]);
        }
      }
    }
  }

  lemma PlaceOrdered<T>(fits: (T, T) -> bool, items: seq<T>, clusters: seq<seq<T>>, x: T)
    requires MembersInOrder(items, clusters) && MembersOf(items, clusters)
    ensures MembersInOrder(items + [x], Place(fits, clusters, x))
  {
    hide Before, FitsAll;
    var k := PlaceShape(fits, clusters, x);
    var placed := Place(fits, clusters, x);
    forall c | 0 <= c < |placed| ensures InOrderOf(items + [x], placed[c]) {
      forall i, j | 0 <= i < j < |placed[c]| ensures Before(items + [x], placed[c][i], placed[c][j]) {
        assert InOrderOf(items, clusters[c]);
        BeforeLonger(items, x, placed[c][i], placed[c][j]);
      }
    }
  }

  /** What first fit must deliver: a partition into linked clusters in order of arrival, where an item sits in a cluster
      only because the members that every earlier cluster had when it came did not accept it. */
  ghost predicate IsFirstFit<T>(fits: (T, T) -> bool, items: seq<T>, clusters: seq<seq<T>>) {
    && multiset(Flatten(clusters)) == multiset(items) && AllLinked(fits, clusters)
    && MembersInOrder(items, clusters) && Refused(fits, items, clusters)
  }

  lemma PartitionMembers<T>(items: seq<T>, clusters: seq<seq<T>>)
    requires multiset(Flatten(clusters)) == multiset(items)
    ensures MembersOf(items, clusters)
  {
    forall c, i | 0 <= c < |clusters| && 0 <= i < |clusters[c]| ensures clusters[c][i] in items {
      InFlatten(clusters, c, i);
      assert clusters[c][i] in multiset(Flatten(clusters));
    }
  }

  lemma {:induction false} FirstFitIs<T>(fits: (T, T) -> bool, items: seq<T>)
    ensures IsFirstFit(fits, items, FirstFit(fits, items))
  {
    hide AllLinked, MembersInOrder, Refused, Place;
    FirstFitPartitions(fits, items);
    LinkedInduction(fits, items);
    if items == [] {
      NoClusters(fits, items);
    } else {
      var front, x := items[..|items| - 1], items[|items| - 1];
      assert items == front + [x];
      FirstFitIs(fits, front);
      PartitionMembers(front, FirstFit(fits, front));
      PlaceRefused(fits, front, FirstFit(fits, front), x);
      PlaceOrdered(fits, front, FirstFit(fits, front), x);
    }
  }

  lemma NoClusters<T>(fits: (T, T) -> bool, items: seq<T>)
    ensures MembersInOrder(items, []) && Refused(fits, items, [])
  {
  }

  // ----- nothing else is a first fit -----

  lemma {:induction false} FlattenMember<T>(clusters: seq<seq<T>>, x: T) returns (c: nat, i: nat)
    requires x in Flatten(clusters)
    ensures c < |clusters| && i < |clusters[c]| && clusters[c][i] == x
  {
    if x in clusters[0] {
      c := 0;
      i :| 0 <= i < |clusters[0]| && clusters[0][i] == x;
    } else {
      c, i := FlattenMember(clusters[1..], x);
      c := c + 1;
    }
  }

  /** Nothing comes after the last of distinct items, and other pairs do not need it. */
  lemma BeforeFront<T>(front: seq<T>, last: T, x: T, y: T)
    requires NoDuplicates(front + [last]) && Before(front + [last], x, y)
    ensures x != last && (y != last ==> Before(front, x, y))
  {
    var items := front + [last];
    var i, j :| 0 <= i < j < |items| && items[i] == x && items[j] == y;
    assert front[i] == x && items[|front|] == last;
    if y != last {
      assert front[j] == y;
    }
  }

  /** Where the last item stands in a first fit: at the end of its cluster, and of all clusters if it is alone. */
  lemma LastPlace<T>(fits: (T, T) -> bool, front: seq<T>, x: T, clusters: seq<seq<T>>, c: nat, i: nat)
    requires NoDuplicates(front + [x]) && IsFirstFit(fits, front + [x], clusters)
    requires c < |clusters| && i < |clusters[c]| && clusters[c][i] == x
    ensures i == |clusters[c]| - 1 && (i == 0 ==> c == |clusters| - 1)
    ensures forall b :: 0 <= b < c ==> !FitsAll(fits, x, clusters[b])
    ensures FitsAll(fits, x, clusters[c][..i])
  {
    hide Before, NoDuplicates;
    assert InOrderOf(front + [x], clusters[c]) && CompleteLink(fits, clusters[c]);
    if i < |clusters[c]| - 1 {
      BeforeFront(front, x, x, clusters[c][i + 1]);
      assert false;
    }
    if i == 0 && c < |clusters| - 1 {
      assert CompleteLink(fits, clusters[c + 1]) && AllRefused(fits, front + [x], clusters[c], clusters[c + 1]);
      assert RefusedEarlier(fits, front + [x], clusters[c], clusters[c + 1][0]);
      BeforeFront(front, x, x, clusters[c + 1][0]);
      assert false;
    }
    forall b | 0 <= b < c ensures !FitsAll(fits, x, clusters[b]) {
      assert AllRefused(fits, front + [x], clusters[b], clusters[c]);
      assert RefusedEarlier(fits, front + [x], clusters[b], clusters[c][i]);
    }
  }

  /** The clusters without their last item. */
  ghost function Without<T>(clusters: seq<seq<T>>, c: nat): seq<seq<T>>
    requires c < |clusters| && clusters[c] != []
  {
    var members := clusters[c][..|clusters[c]| - 1];
    if members == [] then clusters[..c] else clusters[c := members]
  }

  ghost predicate Shortened<T>(rest: seq<T>, members: seq<T>, x: T) {
    rest == members || rest + [x] == members
  }

  lemma WithoutParts<T>(clusters: seq<seq<T>>, c: nat)
    requires c < |clusters| && (|clusters[c]| == 1 ==> c == |clusters| - 1)
    requires forall b :: 0 <= b < |clusters| ==> clusters[b] != []
    ensures var rest := Without(clusters, c);
            |rest| <= |clusters| &&
            forall b :: 0 <= b < |rest| ==>
              rest[b] != [] && Shortened(rest[b], clusters[b], clusters[c][|clusters[c]| - 1])
  {
  }

  lemma LinkedNonEmpty<T>(fits: (T, T) -> bool, clusters: seq<seq<T>>)
    requires AllLinked(fits, clusters)
    ensures forall b :: 0 <= b < |clusters| ==> clusters[b] != []
    ensures clusters != [] ==> Flatten(clusters) != []
  {
    forall b | 0 <= b < |clusters| ensures clusters[b] != [] {
      assert CompleteLink(fits, clusters[b]);
    }
  }

  lemma StillRefused<T>(fits: (T, T) -> bool, front: seq<T>, x: T, members: seq<T>, rest: seq<T>, y: T)
    requires NoDuplicates(front + [x]) && Shortened(rest, members, x) && y != x
    requires RefusedEarlier(fits, front + [x], members, y)
    ensures RefusedEarlier(fits, front, rest, y)
  {
    hide Before, NoDuplicates;
    var m :| 0 <= m < |members| && Before(front + [x], members[m], y) && !fits(y, members[m]);
    BeforeFront(front, x, members[m], y);
    assert rest[m] == members[m];
  }

  lemma ShortenedOrder<T>(front: seq<T>, x: T, members: seq<T>, rest: seq<T>)
    requires NoDuplicates(front + [x]) && InOrderOf(front + [x], members) && Shortened(rest, members, x) && x !in rest
    ensures InOrderOf(front, rest)
  {
    hide Before, NoDuplicates;
    forall i, j | 0 <= i < j < |rest| ensures Before(front, rest[i], rest[j]) {
      assert rest[i] == members[i] && rest[j] == members[j];
      BeforeFront(front, x, rest[i], rest[j]);
    }
  }

  lemma ShortenedLink<T>(fits: (T, T) -> bool, x: T, members: seq<T>, rest: seq<T>)
    requires CompleteLink(fits, members) && Shortened(rest, members, x) && rest != []
    ensures CompleteLink(fits, rest)
  {
    forall i, j | 0 <= i < j < |rest| ensures fits(rest[j], rest[i]) {
      assert rest[i] == members[i] && rest[j] == members[j];
    }
  }

  lemma ShortenedRefuses<T>(fits: (T, T) -> bool, front: seq<T>, x: T, earlier: seq<T>, later: seq<T>,
                            restEarlier: seq<T>, restLater: seq<T>)
    requires NoDuplicates(front + [x]) && AllRefused(fits, front + [x], earlier, later)
    requires Shortened(restEarlier, earlier, x) && Shortened(restLater, later, x) && x !in restLater
    ensures AllRefused(fits, front, restEarlier, restLater)
  {
    hide RefusedEarlier, NoDuplicates;
    forall i | 0 <= i < |restLater| ensures RefusedEarlier(fits, front, restEarlier, restLater[i]) {
      assert restLater[i] == later[i];
      StillRefused(fits, front, x, earlier, restEarlier, restLater[i]);
    }
  }

  lemma WithoutIsFirstFit<T>(fits: (T, T) -> bool, front: seq<T>, x: T, clusters: seq<seq<T>>, rest: seq<seq<T>>)
    requires NoDuplicates(front + [x]) && IsFirstFit(fits, front + [x], clusters)
    requires multiset(Flatten(rest)) == multiset(front) && |rest| <= |clusters|
    requires forall b :: 0 <= b < |rest| ==> rest[b] != [] && Shortened(rest[b], clusters[b], x)
    ensures IsFirstFit(fits, front, rest)
  {
    hide NoDuplicates, Flatten, Shortened, CompleteLink, InOrderOf, AllRefused;
    PartitionMembers(front, rest);
    LastIsNew(front, x);
    forall b | 0 <= b < |rest| ensures x !in rest[b] && CompleteLink(fits, rest[b]) && InOrderOf(front, rest[b]) {
      ShortenedLink(fits, x, clusters[b], rest[b]);
      ShortenedOrder(front, x, clusters[b], rest[b]);
    }
    forall b, c | 0 <= b < c < |rest| ensures AllRefused(fits, front, rest[b], rest[c]) {
      ShortenedRefuses(fits, front, x, clusters[b], clusters[c], rest[b], rest[c]);
    }
  }

  lemma LastIsNew<T>(front: seq<T>, x: T)
    requires NoDuplicates(front + [x])
    ensures x !in front && NoDuplicates(front)
  {
    assert (front + [x])[|front|] == x;
    forall i | 0 <= i < |front| ensures front[i] == (front + [x])[i] != x {
    }
  }

  lemma WithoutPlaced<T>(fits: (T, T) -> bool, clusters: seq<seq<T>>, c: nat, x: T)
    requires c < |clusters| && clusters[c] != [] && clusters[c][|clusters[c]| - 1] == x
    requires |clusters[c]| == 1 ==> c == |clusters| - 1
    requires forall b :: 0 <= b < c ==> !FitsAll(fits, x, clusters[b])
    requires FitsAll(fits, x, clusters[c][..|clusters[c]| - 1])
    ensures Place(fits, Without(clusters, c), x) == clusters
  {
    hide FitsAll, Place;
    var members := clusters[c][..|clusters[c]| - 1];
    assert members + [x] == clusters[c];
    PlaceAt(fits, Without(clusters, c), x, c);
  }

  /** Distinct items have exactly one first fit. */
  lemma {:induction false} FirstFitUnique<T>(fits: (T, T) -> bool, items: seq<T>, clusters: seq<seq<T>>)
    requires NoDuplicates(items) && IsFirstFit(fits, items, clusters)
    ensures clusters == FirstFit(fits, items)
    decreases |items|
  {
    hide NoDuplicates, AllLinked, MembersInOrder, Refused, Place, FitsAll, Shortened, Without, Flatten;
    LinkedNonEmpty(fits, clusters);
    if items == [] {
      PermutationFacts(Flatten(clusters), items);
    } else {
      var front, x := items[..|items| - 1], items[|items| - 1];
      assert items == front + [x];
      PermutationFacts(Flatten(clusters), items);
      var c, i := FlattenMember(clusters, x);
      LastPlace(fits, front, x, clusters, c, i);
      WithoutParts(clusters, c);
      var rest := Without(clusters, c);
      WithoutPlaced(fits, clusters, c, x);
      PlaceKeepsItems(fits, rest, x);
      SameRemainder(multiset(Flatten(rest)), multiset(front), x);
      WithoutIsFirstFit(fits, front, x, clusters, rest);
      LastIsNew(front, x);
      FirstFitUnique(fits, front, rest);
    }
  }

  // ----- the nested loops -----

  ghost function TotalSize<T>(clusters: seq<seq<T>>): nat {
    if clusters == [] then 0 else |clusters[0]| + TotalSize(clusters[1..])
  }

  lemma {:induction false} TotalSizeFlatten<T>(clusters: seq<seq<T>>)
    ensures TotalSize(clusters) == |Flatten(clusters)|
  {
    if clusters != [] {
      TotalSizeFlatten(clusters[1..]);
    }
  }

  /** `k` is the cluster that first fit chooses. */
  lemma {:induction false} PlaceAt<T>(fits: (T, T) -> bool, clusters: seq<seq<T>>, x: T, k: nat)
    requires k <= |clusters| && forall b :: 0 <= b < k ==> !FitsAll(fits, x, clusters[b])
    requires k < |clusters| ==> FitsAll(fits, x, clusters[k])
    ensures Place(fits, clusters, x) == if k < |clusters| then clusters[k := clusters[k] + [x]] else clusters + [[x]]
  {
    hide FitsAll;
    if k > 0 {
      PlaceAt(fits, clusters[1..], x, k - 1);
    }
  }

  /** Check an item against the members of one cluster, stopping at the first that refuses it. */
  method Fitting<T>(fits: (T, T) -> bool, x: T, members: seq<T>) returns (ok: bool, ghost checks: nat)
    ensures ok <==> FitsAll(fits, x, members)
    ensures checks <= |members|
  {
    checks := 0;
    for i := 0 to |members|
      invariant forall j :: 0 <= j < i ==> fits(x, members[j])
      invariant checks == i
    {
      checks := checks + 1;
      if !fits(x, members[i]) {
        return false, checks;
      }
    }
    return true, checks;
  }

  lemma TotalSizeSplit<T>(clusters: seq<seq<T>>, k: nat)
    requires k < |clusters|
    ensures TotalSize(clusters[..k + 1]) == TotalSize(clusters[..k]) + |clusters[k]|
  {
    if k > 0 {
      TotalSizeSplit(clusters[1..], k - 1);
      assert clusters[1..][..k] == clusters[..k + 1][1..] && clusters[1..][..k - 1] == clusters[..k][1..];
    }
  }

  /** The first cluster that accepts `x` completely, or the number of clusters. */
  method FindCluster<T>(fits: (T, T) -> bool, clusters: seq<seq<T>>, x: T) returns (k: nat, ghost checks: nat)
    ensures k <= |clusters| && forall b :: 0 <= b < k ==> !FitsAll(fits, x, clusters[b])
    ensures k < |clusters| ==> FitsAll(fits, x, clusters[k])
    ensures checks <= TotalSize(clusters)
  {
    hide FitsAll;
    k, checks := 0, 0;
    while k < |clusters|
      invariant k <= |clusters| && forall b :: 0 <= b < k ==> !FitsAll(fits, x, clusters[b])
      invariant checks <= TotalSize(clusters[..k])
    {
      var fitting, used := Fitting(fits, x, clusters[k]);
      TotalSizeSplit(clusters, k);
      checks := checks + used;
      if fitting {
        TotalSizePrefix(clusters, k + 1);
        return;
      }
      k := k + 1;
    }
    TotalSizePrefix(clusters, k);
  }

  lemma FirstFitStep<T>(fits: (T, T) -> bool, items: seq<T>, n: nat)
    requires n < |items|
    ensures FirstFit(fits, items[..n + 1]) == Place(fits, FirstFit(fits, items[..n]), items[n])
    ensures TotalSize(FirstFit(fits, items[..n])) == n
  {
    assert items[..n + 1][..n] == items[..n];
    FirstFitSize(fits, items, n);
  }

  lemma CheckBudget(n: nat, before: nat, used: nat)
    requires 2 * before <= n * (n - 1) && used <= n
    ensures 2 * (before + used) <= (n + 1) * n
  {
  }

  /** First-fit clustering with at most n(n-1)/2 compatibility checks. */
  method BuildClusters<T>(fits: (T, T) -> bool, items: seq<T>, maximumClusters: nat)
    returns (r: Option<seq<seq<T>>>, ghost checks: nat)
    ensures r.Some? ==> r.value == FirstFit(fits, items) && |r.value| <= maximumClusters
    ensures r.None? ==> |FirstFit(fits, items)| > maximumClusters
    ensures 2 * checks <= |items| * (|items| - 1)
  {
    hide FitsAll, Place, FirstFit, TotalSize;
    var clusters: seq<seq<T>> := [];
    checks := 0;
    assert FirstFit(fits, items[..0]) == [] by { FirstFitEmpty(fits, items); }
    for n := 0 to |items|
      invariant clusters == FirstFit(fits, items[..n]) && |clusters| <= maximumClusters
      invariant 2 * checks <= n * (n - 1)
    {
      var x := items[n];
      FirstFitStep(fits, items, n);
      var k, used := FindCluster(fits, clusters, x);
      CheckBudget(n, checks, used);
      checks := checks + used;
      PlaceAt(fits, clusters, x, k);
      if k < |clusters| {
        clusters := clusters[k := clusters[k] + [x]];
      } else {
        if |clusters| >= maximumClusters {
          FirstFitGrows(fits, items, n + 1);
          QuadraticGrows(n + 1, |items|);
          return None, checks;
        }
        clusters := clusters + [[x]];
      }
    }
    assert items[..|items|] == items;
    return Some(clusters), checks;
  }

  lemma FirstFitEmpty<T>(fits: (T, T) -> bool, items: seq<T>)
    ensures FirstFit(fits, items[..0]) == []
  {
  }

  lemma QuadraticGrows(m: nat, n: nat)
    requires m <= n
    ensures m * (m - 1) <= n * (n - 1)
  {
    if m > 0 {
      assert n * (n - 1) - m * (m - 1) == (n - m) * (n + m - 1);
    }
  }

  lemma {:induction false} TotalSizePrefix<T>(clusters: seq<seq<T>>, k: nat)
    requires k <= |clusters|
    ensures TotalSize(clusters[..k]) <= TotalSize(clusters)
  {
    if k > 0 {
      TotalSizePrefix(clusters[1..], k - 1);
      assert clusters[1..][..k - 1] == clusters[..k][1..];
    }
  }

  lemma FirstFitSize<T>(fits: (T, T) -> bool, items: seq<T>, n: nat)
    requires n <= |items|
    ensures TotalSize(FirstFit(fits, items[..n])) == n
  {
    FirstFitPartitions(fits, items[..n]);
    TotalSizeFlatten(FirstFit(fits, items[..n]));
    assert |multiset(Flatten(FirstFit(fits, items[..n])))| == |multiset(items[..n])|;
  }

  /** The number of clusters never falls as items are added. */
  lemma {:induction false} FirstFitGrows<T>(fits: (T, T) -> bool, items: seq<T>, n: nat)
    requires n <= |items|
    ensures |FirstFit(fits, items[..n])| <= |FirstFit(fits, items)|
    decreases |items|
  {
    if n == |items| {
      assert items[..n] == items;
    } else {
      var front := items[..|items| - 1];
      FirstFitGrows(fits, front, n);
      assert front[..n] == items[..n];
      var k := PlaceShape(fits, FirstFit(fits, front), items[|items| - 1]);
    }
  }

  // ----- order within a cluster -----

  lemma {:induction false} InFlatten<T>(clusters: seq<seq<T>>, c: nat, i: nat)
    requires c < |clusters| && i < |clusters[c]|
    ensures clusters[c][i] in Flatten(clusters)
  {
    if c > 0 {
      InFlatten(clusters[1..], c - 1, i);
    }
  }

  lemma ClusterMember<T>(fits: (T, T) -> bool, items: seq<T>, c: nat, i: nat)
    requires c < |FirstFit(fits, items)| && i < |FirstFit(fits, items)[c]|
    ensures FirstFit(fits, items)[c][i] in items
  {
    var clusters := FirstFit(fits, items);
    InFlatten(clusters, c, i);
    FirstFitPartitions(fits, items);
    assert clusters[c][i] in multiset(Flatten(clusters));
  }

  /** A cluster lists its members in the order in which they came. */
  lemma {:induction false} FirstFitKeepsOrder<T(!new)>(fits: (T, T) -> bool, less: (T, T) -> bool, items: seq<T>)
    requires Sorted(less, items)
    ensures forall c :: 0 <= c < |FirstFit(fits, items)| ==> Sorted(less, FirstFit(fits, items)[c])
  {
    if items != [] {
      var n := |items| - 1;
      var clusters := FirstFit(fits, items[..n]);
      FirstFitKeepsOrder(fits, less, items[..n]);
      var k := PlaceShape(fits, clusters, items[n]);
      if k < |clusters| {
        forall i | 0 <= i < |clusters[k]| ensures !less(items[n], clusters[k][i]) {
          ClusterMember(fits, items[..n], k, i);
        }
      }
    }
  }
}
