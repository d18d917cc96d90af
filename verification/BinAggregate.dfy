/** Grouping pieces into traversals and bins: durations and findings (`aggregate_directed_road_bins`). */
module BinAggregate {
  import opened FiniteSets
  import opened Wrappers
  import opened RoadBinTypes
  import opened IntervalMeasure

  datatype TravelKey = TravelKey(arc: nat, bin: nat, sequence: string, ordinal: nat)

  function KeyOf(p: Piece): TravelKey { TravelKey(p.arc, p.bin, p.sequence, p.ordinal) }

  /** The pieces of one traversal of one bin, in order. */
  function GroupOf(pieces: seq<Piece>, key: TravelKey): seq<Piece> {
    if pieces == [] then []
    else GroupOf(pieces[..|pieces| - 1], key) +
         if KeyOf(pieces[|pieces| - 1]) == key then [pieces[|pieces| - 1]] else []
  }

  lemma GroupSnoc(pieces: seq<Piece>, p: Piece, key: TravelKey)
    ensures GroupOf(pieces + [p], key) == GroupOf(pieces, key) + if KeyOf(p) == key then [p] else []
  {
    assert (pieces + [p])[..|pieces|] == pieces;
  }

  lemma {:induction false} GroupMembers(pieces: seq<Piece>, key: TravelKey)
    ensures forall p :: p in GroupOf(pieces, key) <==> p in pieces && KeyOf(p) == key
  {
    if pieces != [] {
      var front, last := pieces[..|pieces| - 1], pieces[|pieces| - 1];
      GroupMembers(front, key);
      assert pieces == front + [last];
      assert forall p :: p in pieces <==> p in front || p == last;
    }
  }

  /** A group holds the pieces of one sequence and ordinal in one bin of one arc. */
  lemma GroupMeaning(pieces: seq<Piece>, key: TravelKey, p: Piece)
    ensures p in GroupOf(pieces, key) <==>
              p in pieces && p.arc == key.arc && p.bin == key.bin && p.sequence == key.sequence &&
              p.ordinal == key.ordinal
  {
    GroupMembers(pieces, key);
  }

  /** `groups` holds exactly the nonempty traversals. */
  ghost predicate Grouped(pieces: seq<Piece>, groups: map<TravelKey, seq<Piece>>) {
    (forall key :: GroupOf(pieces, key) == if key in groups then groups[key] else []) &&
    forall key :: key in groups ==> groups[key] != []
  }

  method GroupTraversals(pieces: seq<Piece>) returns (groups: map<TravelKey, seq<Piece>>)
    ensures Grouped(pieces, groups)
  {
    groups := map[];
    for i := 0 to |pieces|
      invariant Grouped(pieces[..i], groups)
    {
      var key := KeyOf(pieces[i]);
      var before := if key in groups then groups[key] else [];
      assert pieces[..i + 1] == pieces[..i] + [pieces[i]];
      forall k {
        GroupSnoc(pieces[..i], pieces[i], k);
      }
      groups := groups[key := before + [pieces[i]]];
    }
    assert pieces[..|pieces|] == pieces;
  }

  // ----- usable time per bin -----

  /** Time spent in pieces whose traversal is among `keys`. */
  function DurationOf(pieces: seq<Piece>, keys: set<TravelKey>): int {
    if pieces == [] then 0
    else DurationOf(pieces[..|pieces| - 1], keys) +
         if KeyOf(pieces[|pieces| - 1]) in keys then pieces[|pieces| - 1].Duration() else 0
  }

  /** Time spent in one bin. */
  function DurationIn(pieces: seq<Piece>, arc: nat, bin: nat): int {
    if pieces == [] then 0
    else
      var p := pieces[|pieces| - 1];
      DurationIn(pieces[..|pieces| - 1], arc, bin) + if p.arc == arc && p.bin == bin then p.Duration() else 0
  }

  lemma {:induction false} DurationAdds(pieces: seq<Piece>, keys: set<TravelKey>, key: TravelKey)
    requires key !in keys
    ensures DurationOf(pieces, keys + {key}) == DurationOf(pieces, keys) + TotalDuration(GroupOf(pieces, key))
  {
    if pieces != [] {
      var n := |pieces| - 1;
      DurationAdds(pieces[..n], keys, key);
      if KeyOf(pieces[n]) == key {
        TotalDurationSnoc(GroupOf(pieces[..n], key), pieces[n]);
      } else {
        assert GroupOf(pieces, key) == GroupOf(pieces[..n], key);
      }
    }
  }

  lemma {:induction false} DurationOfBin(pieces: seq<Piece>, arc: nat, bin: nat, keys: set<TravelKey>)
    requires forall p :: p in pieces ==> (KeyOf(p) in keys <==> p.arc == arc && p.bin == bin)
    ensures DurationOf(pieces, keys) == DurationIn(pieces, arc, bin)
  {
    if pieces != [] {
      DurationOfBin(pieces[..|pieces| - 1], arc, bin, keys);
      assert pieces[|pieces| - 1] in pieces;
    }
  }

  lemma {:induction false} DurationMonotone(pieces: seq<Piece>, few: set<TravelKey>, many: set<TravelKey>)
    requires few <= many && forall p :: p in pieces ==> p.start < p.end
    ensures 0 <= DurationOf(pieces, few) <= DurationOf(pieces, many)
  {
    if pieces != [] {
      DurationMonotone(pieces[..|pieces| - 1], few, many);
      assert pieces[|pieces| - 1] in pieces;
    }
  }

  lemma {:induction false} DurationNone(pieces: seq<Piece>)
    ensures DurationOf(pieces, {}) == 0
  {
    if pieces != [] {
      DurationNone(pieces[..|pieces| - 1]);
    }
  }

  ghost function BinKeys(groups: map<TravelKey, seq<Piece>>, arc: nat, bin: nat): set<TravelKey> {
    set key | key in groups && key.arc == arc && key.bin == bin
  }

  lemma BinKeysDuration(pieces: seq<Piece>, groups: map<TravelKey, seq<Piece>>, arc: nat, bin: nat)
    requires Grouped(pieces, groups)
    ensures DurationOf(pieces, BinKeys(groups, arc, bin)) == DurationIn(pieces, arc, bin)
  {
    forall p | p in pieces ensures KeyOf(p) in groups {
      GroupMembers(pieces, KeyOf(p));
      assert p in GroupOf(pieces, KeyOf(p));
    }
    DurationOfBin(pieces, arc, bin, BinKeys(groups, arc, bin));
  }

  /** The distinct traversals of a bin: one for each sequence and ordinal among its pieces. */
  function TraversalsOf(pieces: seq<Piece>, arc: nat, bin: nat): set<(string, nat)> {
    set p | p in pieces && p.arc == arc && p.bin == bin :: (p.sequence, p.ordinal)
  }

  lemma TraversalCount(pieces: seq<Piece>, groups: map<TravelKey, seq<Piece>>, arc: nat, bin: nat)
    requires Grouped(pieces, groups)
    ensures |BinKeys(groups, arc, bin)| == |TraversalsOf(pieces, arc, bin)|
  {
    var keys, travelled := BinKeys(groups, arc, bin), TraversalsOf(pieces, arc, bin);
    forall t | t in travelled ensures TravelKey(arc, bin, t.0, t.1) in keys {
      var p :| p in pieces && p.arc == arc && p.bin == bin && t == (p.sequence, p.ordinal);
      GroupMembers(pieces, KeyOf(p));
      assert p in GroupOf(pieces, KeyOf(p));
    }
    forall key | key in keys ensures (key.sequence, key.ordinal) in travelled {
      GroupMembers(pieces, key);
      assert groups[key][0] in GroupOf(pieces, key);
    }
    SameSize(keys, travelled, arc, bin);
  }

  lemma {:induction false} SameSize(keys: set<TravelKey>, travelled: set<(string, nat)>, arc: nat, bin: nat)
    requires forall key :: key in keys ==> key.arc == arc && key.bin == bin && (key.sequence, key.ordinal) in travelled
    requires forall t :: t in travelled ==> TravelKey(arc, bin, t.0, t.1) in keys
    ensures |keys| == |travelled|
    decreases keys
  {
    if keys == {} {
      assert travelled == {};
    } else {
      var key :| key in keys;
      SameSize(keys - {key}, travelled - {(key.sequence, key.ordinal)}, arc, bin);
    }
  }

  /** Checked sum of the durations of one traversal. */
  method UsableDuration(group: seq<Piece>) returns (r: Result<int, Error>)
    requires forall p :: p in group ==> p.start < p.end
    ensures r == if TotalDuration(group) <= INT64_MAX then Ok(TotalDuration(group)) else Err(TimeOverflow)
  {
    var total := 0;
    for i := 0 to |group|
      invariant total == TotalDuration(group[..i]) && 0 <= total <= INT64_MAX
    {
      assert group[i] in group;
      assert group[..i + 1] == group[..i] + [group[i]];
      TotalDurationSnoc(group[..i], group[i]);
      DurationPrefix(group, i + 1);
      var duration := CheckedDifference(group[i].end, group[i].start);
      if duration.Err? {
        return Err(TimeOverflow);
      }
      var sum := CheckedAdd(total, duration.value);
      if sum.Err? {
        return Err(TimeOverflow);
      }
      total := sum.value;
    }
    assert group[..|group|] == group;
    return Ok(total);
  }

  lemma {:induction false} DurationNonnegative(group: seq<Piece>)
    requires forall p :: p in group ==> p.start < p.end
    ensures 0 <= TotalDuration(group)
  {
    if group != [] {
      DurationNonnegative(group[..|group| - 1]);
      assert group == group[..|group| - 1] + [group[|group| - 1]];
      TotalDurationSnoc(group[..|group| - 1], group[|group| - 1]);
    }
  }

  lemma {:induction false} DurationPrefix(group: seq<Piece>, i: nat)
    requires i <= |group| && forall p :: p in group ==> p.start < p.end
    ensures 0 <= TotalDuration(group[..i]) <= TotalDuration(group)
    decreases |group|
  {
    hide TotalDuration;
    if i == |group| {
      assert group[..i] == group;
      DurationNonnegative(group);
    } else {
      var front, last := group[..|group| - 1], group[|group| - 1];
      DurationPrefix(front, i);
      assert front[..i] == group[..i] && group == front + [last];
      TotalDurationSnoc(front, last);
    }
  }

  /** The usable time of a bin, summed over its traversals, is exactly the time of all its pieces. */
  method BinUsable(ghost pieces: seq<Piece>, groups: map<TravelKey, seq<Piece>>, arc: nat, bin: nat)
    returns (r: Result<int, Error>)
    requires Grouped(pieces, groups) && forall p :: p in pieces ==> p.start < p.end
    ensures r == if DurationIn(pieces, arc, bin) <= INT64_MAX
                 then Ok(DurationIn(pieces, arc, bin)) else Err(TimeOverflow)
  {
    BinKeysDuration(pieces, groups, arc, bin);
    DurationNone(pieces);
    var total := 0;
    var left := set key | key in groups && key.arc == arc && key.bin == bin;
    ghost var done := {};
    while left != {}
      invariant done + left == BinKeys(groups, arc, bin) && done !! left
      invariant total == DurationOf(pieces, done) && 0 <= total <= INT64_MAX
      decreases left
    {
      var key :| key in left;
      GroupMembers(pieces, key);
      DurationAdds(pieces, done, key);
      DurationMonotone(pieces, done + {key}, BinKeys(groups, arc, bin));
      DurationMonotone(pieces, done, done + {key});
      DurationPrefix(groups[key], 0);
      var usable := UsableDuration(groups[key]);
      if usable.Err? {
        return Err(TimeOverflow);
      }
      var sum := CheckedAdd(total, usable.value);
      if sum.Err? {
        return Err(TimeOverflow);
      }
      total := sum.value;
      left, done := left - {key}, done + {key};
    }
    assert done == BinKeys(groups, arc, bin);
    return Ok(total);
  }

  // ----- findings -----

  datatype Finding = Finding(id: string, sequence: string, start: int, end: int, critical: bool)

  predicate Touches(p: Piece, f: Finding) { Overlap(p, f.start, f.end).Some? }

  /** Some piece of the bin was travelled in the finding's sequence while the finding lasted. */
  ghost predicate Affects(pieces: seq<Piece>, arc: nat, bin: nat, f: Finding) {
    exists p :: p in pieces && p.arc == arc && p.bin == bin && p.sequence == f.sequence && Touches(p, f)
  }

  /** A piece is touched exactly when the two half-open time intervals share a nanosecond. */
  lemma TouchesMeansSharedTime(p: Piece, f: Finding)
    requires p.start < p.end && f.start < f.end
    ensures Touches(p, f) <==> Span(p.start, p.end) * Span(f.start, f.end) != {}
  {
    var t := if p.start < f.start then f.start else p.start;
    if Touches(p, f) {
      assert t in Span(p.start, p.end) * Span(f.start, f.end);
    } else {
      assert Span(p.start, p.end) * Span(f.start, f.end) == {};
    }
  }

  method TraversalTouched(group: seq<Piece>, f: Finding) returns (r: bool)
    ensures r <==> exists p :: p in group && Touches(p, f)
  {
    for i := 0 to |group|
      invariant forall j :: 0 <= j < i ==> !Touches(group[j], f)
    {
      if Touches(group[i], f) {
        assert group[i] in group;
        return true;
      }
    }
    return false;
  }

  /** A finding is listed for a bin exactly when it affects one of the bin's pieces. */
  method FindingInBin(ghost pieces: seq<Piece>, groups: map<TravelKey, seq<Piece>>, arc: nat, bin: nat, f: Finding)
    returns (listed: bool)
    requires Grouped(pieces, groups)
    ensures listed <==> Affects(pieces, arc, bin, f)
  {
    hide Touches;
    listed := false;
    var left := set key | key in groups && key.arc == arc && key.bin == bin && key.sequence == f.sequence;
    ghost var all := left;
    while left != {}
      invariant left <= all
      invariant listed <==> exists p :: p in pieces && KeyOf(p) in all - left && Touches(p, f)
      decreases left
    {
      var key :| key in left;
      GroupMembers(pieces, key);
      var touched := TraversalTouched(groups[key], f);
      ghost var before := left;
      left := left - {key};
      assert all - left == (all - before) + {key};
      listed := listed || touched;
    }
    forall p | p in pieces && p.arc == arc && p.bin == bin && p.sequence == f.sequence ensures KeyOf(p) in all {
      GroupMembers(pieces, KeyOf(p));
      assert p in GroupOf(pieces, KeyOf(p));
    }
  }

  /** The bins that a finding is localized to. */
  method Localize(ghost pieces: seq<Piece>, groups: map<TravelKey, seq<Piece>>, bins: seq<(nat, nat)>, f: Finding)
    returns (indices: seq<nat>)
    requires Grouped(pieces, groups)
    ensures forall i: nat :: i in indices <==> i < |bins| && Affects(pieces, bins[i].0, bins[i].1, f)
    ensures forall a, b :: 0 <= a < b < |indices| ==> indices[a] < indices[b]
  {
    hide Affects;
    indices := [];
    for i := 0 to |bins|
      invariant forall k: nat :: k in indices <==> k < i && Affects(pieces, bins[k].0, bins[k].1, f)
      invariant forall a, b :: 0 <= a < b < |indices| ==> indices[a] < indices[b]
    {
      var listed := FindingInBin(pieces, groups, bins[i].0, bins[i].1, f);
      if listed {
        forall a | 0 <= a < |indices| ensures indices[a] < i {
          assert indices[a] in indices;
        }
        indices := indices + [i];
      }
    }
  }
}
