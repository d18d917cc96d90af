/** Which derivatives are accepted, and what the reported pointers name. */
module JsonAcceptance {
  import opened Decimals
  import opened Wrappers
  import opened JsonPointer
  import opened JsonValues
  import opened JsonDiff
  import opened JsonPatch

  // ----- greedy matching finds every subsequence -----

  ghost predicate Ascending(f: seq<nat>) {
    forall i, j :: 0 <= i < j < |f| ==> f[i] < f[j]
  }

  /** `kept[i]` equals item `f[i]`, and the items come in order. */
  ghost predicate Embeds(items: seq<Json>, kept: seq<Json>, f: seq<nat>) {
    && |f| == |kept| && Ascending(f)
    && forall i :: 0 <= i < |f| ==> f[i] < |items| && PyEq(items[f[i]], kept[i])
  }

  ghost predicate Subsequence(items: seq<Json>, kept: seq<Json>) {
    exists f :: Embeds(items, kept, f)
  }

  /** The greedy pass is never behind an embedding. */
  lemma {:induction false} GreedyAhead(items: seq<Json>, kept: seq<Json>, f: seq<nat>, k: nat, j: nat)
    requires Embeds(items, kept, f) && k <= |items| && j <= |kept|
    requires j > 0 ==> f[j - 1] < k
    ensures j <= Matched(items, kept, k)
    decreases k
  {
    hide PyEq;
    if j > 0 {
      if f[j - 1] < k - 1 {
        GreedyAhead(items, kept, f, k - 1, j);
      } else {
        assert j > 1 ==> f[j - 2] < f[j - 1];
        GreedyAhead(items, kept, f, k - 1, j - 1);
      }
    }
  }

  lemma {:induction false} GreedyEmbeds(items: seq<Json>, kept: seq<Json>, k: nat) returns (f: seq<nat>)
    requires k <= |items|
    ensures Embeds(items, kept[..Matched(items, kept, k)], f)
    ensures forall i :: 0 <= i < |f| ==> f[i] < k
  {
    hide PyEq;
    f := [];
    if k > 0 {
      f := GreedyEmbeds(items, kept, k - 1);
      if !Dropped(items, kept, k - 1) {
        f := f + [k - 1];
      }
    }
  }

  /** A shorter list is accepted exactly when it is a subsequence. */
  lemma GreedyIsComplete(items: seq<Json>, kept: seq<Json>)
    ensures Matched(items, kept, |items|) == |kept| <==> Subsequence(items, kept)
  {
    hide PyEq, Matched;
    if Matched(items, kept, |items|) == |kept| {
      var f := GreedyEmbeds(items, kept, |items|);
      assert kept[..|kept|] == kept;
    }
    if Subsequence(items, kept) {
      var f :| Embeds(items, kept, f);
      GreedyAhead(items, kept, f, |items|, |kept|);
    }
  }

  // ----- which pairs are accepted -----

  /** No field added or dropped, and lists of another length only shortened. */
  ghost predicate Acceptable(source: Json, derived: Json)
    decreases source
  {
    if source.Dict? && derived.Dict? then
      Keys(source.fields) == Keys(derived.fields) &&
      forall i | 0 <= i < |source.fields| :: Acceptable(source.fields[i].value, Value(derived.fields, source.fields, i))
    else if source.List? && derived.List? then
      if |source.items| == |derived.items| then
        forall i | 0 <= i < |source.items| :: Acceptable(source.items[i], derived.items[i])
      else Subsequence(source.items, derived.items)
    else true
  }

  lemma {:induction false} PartialAccepted(source: Json, derived: Json, path: seq<string>, k: nat)
    requires Aligned(source, derived) && k <= Size(source)
    ensures Partial(source, derived, path, k).Ok? <==>
      forall i {:trigger ChildDiff(source, derived, path, i)} :: 0 <= i < k ==> ChildDiff(source, derived, path, i).Ok?
  {
    hide ChildDiff, Aligned;
    if k > 0 {
      PartialAccepted(source, derived, path, k - 1);
    }
  }

  ghost predicate ChildAcceptable(source: Json, derived: Json, i: int)
    requires Aligned(source, derived) && !Resized(source, derived)
  {
    0 <= i < Size(source) ==>
      if source.Dict? then Acceptable(source.fields[i].value, Value(derived.fields, source.fields, i))
      else Acceptable(source.items[i], derived.items[i])
  }

  lemma AcceptableByChildren(source: Json, derived: Json)
    requires Aligned(source, derived) && !Resized(source, derived)
    ensures Acceptable(source, derived) <==> forall i :: ChildAcceptable(source, derived, i)
  {
    hide PyEq;
    if forall i :: ChildAcceptable(source, derived, i) {
      if source.Dict? {
        forall i | 0 <= i < |source.fields|
          ensures Acceptable(source.fields[i].value, Value(derived.fields, source.fields, i))
        {
          assert ChildAcceptable(source, derived, i);
        }
      } else {
        forall i | 0 <= i < |source.items| ensures Acceptable(source.items[i], derived.items[i]) {
          assert ChildAcceptable(source, derived, i);
        }
      }
    }
  }

  lemma {:induction false} ChildAccepted(source: Json, derived: Json, path: seq<string>, i: nat)
    requires Aligned(source, derived) && !Resized(source, derived) && i < Size(source)
    ensures ChildDiff(source, derived, path, i).Ok? <==> ChildAcceptable(source, derived, i)
    decreases source, 0
  {
    hide PyEq;
    if source.Dict? {
      AcceptedIff(source.fields[i].value, Value(derived.fields, source.fields, i), ChildPath(source, path, i));
    } else {
      AcceptedIff(source.items[i], derived.items[i], ChildPath(source, path, i));
    }
  }

  lemma ResizedAccepted(source: Json, derived: Json, path: seq<string>)
    requires Resized(source, derived)
    ensures Diff(source, derived, path).Ok? <==> Acceptable(source, derived)
  {
    hide PyEq, Subsequence, Matched;
    GreedyIsComplete(source.items, derived.items);
  }

  lemma UnalignedAccepted(source: Json, derived: Json, path: seq<string>)
    requires !Aligned(source, derived)
    ensures Diff(source, derived, path).Ok? <==> Acceptable(source, derived)
    ensures Diff(source, derived, path).Err? ==>
              source.Dict? && derived.Dict? && Keys(source.fields) != Keys(derived.fields)
  {
    hide PyEq;
  }

  /** A comparison is refused for no other reason than an unacceptable pair somewhere below. */
  lemma {:induction false} AcceptedIff(source: Json, derived: Json, path: seq<string>)
    ensures Diff(source, derived, path).Ok? <==> Acceptable(source, derived)
    decreases source, 1
  {
    hide Diff, ChildDiff, Acceptable, ChildAcceptable;
    if Resized(source, derived) {
      ResizedAccepted(source, derived, path);
    } else if Aligned(source, derived) {
      DiffIs(source, derived, path);
      PartialAccepted(source, derived, path, Size(source));
      AcceptableByChildren(source, derived);
      forall i | 0 <= i < Size(source)
        ensures ChildDiff(source, derived, path, i).Ok? <==> ChildAcceptable(source, derived, i)
      {
        ChildAccepted(source, derived, path, i);
      }
      OutsideAcceptable(source, derived);
    } else {
      UnalignedAccepted(source, derived, path);
    }
  }

  lemma OutsideAcceptable(source: Json, derived: Json)
    requires Aligned(source, derived) && !Resized(source, derived)
    ensures forall i :: !(0 <= i < Size(source)) ==> ChildAcceptable(source, derived, i)
  {
  }

  // ----- pointers -----

  /** Evaluation of a pointer, section 4 of RFC 6901. */
  ghost function Resolve(document: Json, path: seq<string>): Option<Json>
    decreases |path|
  {
    if path == [] then Some(document)
    else match document
      case Dict(fields) => if path[0] in Keys(fields) then Resolve(Get(fields, path[0]), path[1..]) else None
      case List(items) =>
        var index := Index(path[0]);
        if index.Some? && index.value < |items| then Resolve(items[index.value], path[1..]) else None
      case _ => None
  }

  lemma ResolveChild(source: Json, path: seq<string>, k: nat, rest: seq<string>)
    requires WellFormed(source) && k < Size(source)
    ensures Resolve(source, [ChildPath(source, path, k)[|path|]] + rest) == Resolve(Child(source, k), rest)
  {
    hide Decimal, Index;
    var token := ChildPath(source, path, k)[|path|];
    assert ([token] + rest)[1..] == rest;
    if source.Dict? {
      GetAt(source.fields, k);
    } else {
      IndexDecimal(k);
    }
  }

  /** The value a change was recorded with is the value its pointer names in the source. */
  lemma {:induction false} ChangeResolves(source: Json, derived: Json, path: seq<string>, e: Edit)
    requires WellFormed(source)
    requires Diff(source, derived, path).Ok? && e in Diff(source, derived, path).value
    ensures path <= e.path && Resolve(source, e.path[|path|..]) == Some(e.before)
    decreases source, 1
  {
    hide Decimal, Resolve;
    ChangesBelow(source, derived, path, e);
    if Aligned(source, derived) {
      var j :| FoundAt(source, derived, path, j, e);
      FoundResolves(source, derived, path, j, e);
    } else {
      assert e.path[|path|..] == [];
      ResolveHere(source);
    }
  }

  lemma ResolveHere(document: Json)
    ensures Resolve(document, []) == Some(document)
  {
  }

  lemma {:induction false} FoundResolves(source: Json, derived: Json, path: seq<string>, j: nat, e: Edit)
    requires WellFormed(source) && j < Size(source) && FoundAt(source, derived, path, j, e)
    ensures path <= e.path && Resolve(source, e.path[|path|..]) == Some(e.before)
    decreases source, 0
  {
    hide Decimal, Resolve, Dropped, Diff;
    var p := ChildPath(source, path, j);
    FoundBelow(source, derived, path, j, e);
    var rest := e.path[|p|..];
    assert path <= p && |p| == |path| + 1;
    assert e.path[|path|..] == [p[|path|]] + rest;
    ResolveChild(source, path, j, rest);
    if source.Dict? {
      ChangeResolves(source.fields[j].value, Value(derived.fields, source.fields, j), p, e);
    } else if !Resized(source, derived) {
      ChangeResolves(source.items[j], derived.items[j], p, e);
    } else {
      assert rest == [];
      ResolveHere(source.items[j]);
    }
  }

  /** `c`'s pointer reads as a path to the value recorded as its source. */
  ghost predicate Names(source: Json, c: ChangedValue) {
    && Decode(c.pointer).Some?
    && Resolve(source, Decode(c.pointer).value) == Some(c.source)
  }

  /** Neither pointer is the other, nor the start of the other. */
  ghost predicate PointersApart(c: ChangedValue, d: ChangedValue) {
    && Decode(c.pointer).Some? && Decode(d.pointer).Some? && c.pointer != d.pointer
    && !(Decode(c.pointer).value <= Decode(d.pointer).value)
    && !(Decode(d.pointer).value <= Decode(c.pointer).value)
  }

  /** The pointers of one report name disjoint values of the source. */
  lemma PointersNameDisjointValues(source: Json, derived: Json)
    requires WellFormed(source) && Diff(source, derived, []).Ok?
    ensures var changes := Record(Diff(source, derived, []).value);
      && (forall i :: 0 <= i < |changes| ==> Names(source, changes[i]))
      && (forall i, j :: 0 <= i < j < |changes| ==> PointersApart(changes[i], changes[j]))
  {
    hide Diff, Decode, Encode, Resolve, WellFormed;
    var edits := Diff(source, derived, []).value;
    var changes := Record(edits);
    ChangesApart(source, derived, []);
    forall i | 0 <= i < |changes| ensures Names(source, changes[i]) {
      ChangeResolves(source, derived, [], edits[i]);
      DecodeEncode(edits[i].path);
      assert edits[i].path[0..] == edits[i].path;
    }
    forall i, j | 0 <= i < j < |changes| ensures PointersApart(changes[i], changes[j]) {
      DecodeEncode(edits[i].path);
      DecodeEncode(edits[j].path);
      assert Apart(edits[i], edits[j]);
    }
  }
}
