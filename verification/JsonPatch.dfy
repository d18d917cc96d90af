/** The reported changes are a patch: they name disjoint places and turn the source into the derivative. */
module JsonPatch {
  import opened Decimals
  import opened Wrappers
  import opened JsonValues
  import opened JsonDiff

  // ----- containers -----

  ghost function Size(source: Json): nat {
    match source
    case Dict(fields) => |fields|
    case List(items) => |items|
    case _ => 0
  }

  ghost function Child(source: Json, k: nat): Json
    requires k < Size(source)
    ensures Child(source, k) < source
  {
    if source.Dict? then source.fields[k].value else source.items[k]
  }

  /** The path of child `k`. */
  ghost function ChildPath(source: Json, path: seq<string>, k: nat): seq<string>
    requires k < Size(source)
  {
    path + [if source.Dict? then source.fields[k].key else Decimal(k)]
  }

  /** Nothing lies in two children. */
  lemma ChildrenApart(source: Json, path: seq<string>, j: nat, k: nat, p: seq<string>)
    requires WellFormed(source) && j < Size(source) && k < Size(source)
    requires ChildPath(source, path, j) <= p && ChildPath(source, path, k) <= p
    ensures j == k
  {
    hide Decimal;
    assert p[|path|] == ChildPath(source, path, j)[|path|] == ChildPath(source, path, k)[|path|];
    if source.List? {
      DecimalInjective(j, k);
    }
  }

  /** Both are dictionaries with the same keys, or both are lists. */
  ghost predicate Aligned(source: Json, derived: Json) {
    || (source.Dict? && derived.Dict? && Keys(source.fields) == Keys(derived.fields))
    || (source.List? && derived.List?)
  }

  ghost predicate Resized(source: Json, derived: Json) {
    source.List? && derived.List? && |source.items| != |derived.items|
  }

  /** Changes found at child `k`. */
  ghost function ChildDiff(source: Json, derived: Json, path: seq<string>, k: nat): Result<seq<Edit>, DiffError>
    requires Aligned(source, derived) && k < Size(source)
  {
    if source.Dict? then
      Diff(source.fields[k].value, Value(derived.fields, source.fields, k), ChildPath(source, path, k))
    else if !Resized(source, derived) then Diff(source.items[k], derived.items[k], ChildPath(source, path, k))
    else if Dropped(source.items, derived.items, k) then Ok([Removed(ChildPath(source, path, k), source.items[k])])
    else Ok([])
  }

  /** Changes found at the first `k` children. */
  ghost function Partial(source: Json, derived: Json, path: seq<string>, k: nat): Result<seq<Edit>, DiffError>
    requires Aligned(source, derived) && k <= Size(source)
  {
    if k == 0 then Ok([]) else Both(Partial(source, derived, path, k - 1), ChildDiff(source, derived, path, k - 1))
  }

  lemma {:induction false} PartialIs(source: Json, derived: Json, path: seq<string>, k: nat)
    requires Aligned(source, derived) && k <= Size(source)
    ensures Partial(source, derived, path, k) ==
      if source.Dict? then FieldDiff(source, derived, path, k)
      else if !Resized(source, derived) then ItemDiff(source, derived, path, k)
      else Ok(Removals(source.items, derived.items, path, k))
  {
    hide Diff, Dropped, Decimal;
    if k > 0 {
      PartialIs(source, derived, path, k - 1);
    }
  }

  lemma DiffIs(source: Json, derived: Json, path: seq<string>)
    requires Aligned(source, derived)
    ensures Diff(source, derived, path) ==
      if Resized(source, derived) && Matched(source.items, derived.items, |source.items|) != |derived.items|
      then Err(NotRemovalOnly) else Partial(source, derived, path, Size(source))
  {
    PartialIs(source, derived, path, Size(source));
  }

  // ----- where the changes lie -----

  ghost predicate FoundAt(source: Json, derived: Json, path: seq<string>, j: int, e: Edit) {
    Aligned(source, derived) && 0 <= j < Size(source)
    && ChildDiff(source, derived, path, j).Ok? && e in ChildDiff(source, derived, path, j).value
  }

  lemma {:induction false} PartialMembers(source: Json, derived: Json, path: seq<string>, k: nat, e: Edit)
    requires Aligned(source, derived) && k <= Size(source) && Partial(source, derived, path, k).Ok?
    ensures e in Partial(source, derived, path, k).value <==>
              exists j :: 0 <= j < k && FoundAt(source, derived, path, j, e)
  {
    hide ChildDiff, Aligned;
    if k > 0 {
      PartialMembers(source, derived, path, k - 1, e);
      assert FoundAt(source, derived, path, k - 1, e) <==> e in ChildDiff(source, derived, path, k - 1).value;
    }
  }

  lemma {:induction false} PartialOk(source: Json, derived: Json, path: seq<string>, j: nat, k: nat)
    requires Aligned(source, derived) && j < k <= Size(source) && Partial(source, derived, path, k).Ok?
    ensures Partial(source, derived, path, j).Ok? && ChildDiff(source, derived, path, j).Ok?
  {
    hide ChildDiff, Aligned;
    if j < k - 1 {
      PartialOk(source, derived, path, j, k - 1);
    }
  }

  /** Each change lies at or below the compared value, and at it only when the whole value was replaced. */
  lemma {:induction false} ChangesBelow(source: Json, derived: Json, path: seq<string>, e: Edit)
    requires Diff(source, derived, path).Ok? && e in Diff(source, derived, path).value
    ensures path <= e.path
    ensures e.path == path ==> e == Modified(path, source, derived)
    ensures Aligned(source, derived) ==> exists j :: FoundAt(source, derived, path, j, e)
    ensures e.path == path ==> !Aligned(source, derived)
    decreases source, 1
  {
    if Aligned(source, derived) {
      DiffIs(source, derived, path);
      PartialMembers(source, derived, path, Size(source), e);
      var j :| 0 <= j < Size(source) && FoundAt(source, derived, path, j, e);
      FoundBelow(source, derived, path, j, e);
    }
  }

  lemma {:induction false} FoundBelow(source: Json, derived: Json, path: seq<string>, j: nat, e: Edit)
    requires j < Size(source) && FoundAt(source, derived, path, j, e)
    ensures ChildPath(source, path, j) <= e.path
    ensures e.Removed? && e.path == ChildPath(source, path, j) ==> Resized(source, derived)
    decreases source, 0
  {
    if source.Dict? {
      ChangesBelow(source.fields[j].value, Value(derived.fields, source.fields, j), ChildPath(source, path, j), e);
    } else if !Resized(source, derived) {
      ChangesBelow(source.items[j], derived.items[j], ChildPath(source, path, j), e);
    }
  }

  /** A replacement is of unequal values, and never of a whole dictionary or list by another. */
  ghost predicate Minimal(e: Edit) {
    e.Modified? ==>
      !PyEq(e.before, e.after) && !(e.before.Dict? && e.after.Dict?) && !(e.before.List? && e.after.List?)
  }

  /** Changes are as deep as they can be. */
  lemma {:induction false} ChangesMinimal(source: Json, derived: Json, path: seq<string>, e: Edit)
    requires Diff(source, derived, path).Ok? && e in Diff(source, derived, path).value
    ensures Minimal(e)
    decreases source, 1
  {
    if Aligned(source, derived) {
      DiffIs(source, derived, path);
      PartialMembers(source, derived, path, Size(source), e);
      var j :| 0 <= j < Size(source) && FoundAt(source, derived, path, j, e);
      FoundMinimal(source, derived, path, j, e);
    }
  }

  lemma {:induction false} FoundMinimal(source: Json, derived: Json, path: seq<string>, j: nat, e: Edit)
    requires j < Size(source) && FoundAt(source, derived, path, j, e)
    ensures Minimal(e)
    decreases source, 0
  {
    if source.Dict? {
      ChangesMinimal(source.fields[j].value, Value(derived.fields, source.fields, j), ChildPath(source, path, j), e);
    } else if !Resized(source, derived) {
      ChangesMinimal(source.items[j], derived.items[j], ChildPath(source, path, j), e);
    }
  }

  // ----- disjoint places -----

  ghost predicate Apart(e: Edit, f: Edit) {
    !(e.path <= f.path) && !(f.path <= e.path)
  }

  ghost predicate AllApart(edits: seq<Edit>) {
    forall i, j :: 0 <= i < j < |edits| ==> Apart(edits[i], edits[j])
  }

  lemma ChildrenEditsApart(source: Json, derived: Json, path: seq<string>, j: nat, k: nat, e: Edit, f: Edit)
    requires WellFormed(source) && j < k < Size(source)
    requires FoundAt(source, derived, path, j, e) && FoundAt(source, derived, path, k, f)
    ensures Apart(e, f)
  {
    hide WellFormed, FoundAt;
    FoundBelow(source, derived, path, j, e);
    FoundBelow(source, derived, path, k, f);
    if e.path <= f.path {
      ChildrenApart(source, path, j, k, f.path);
    } else if f.path <= e.path {
      ChildrenApart(source, path, j, k, e.path);
    }
  }

  /** No change is at, above or below the place of another. */
  lemma {:induction false} ChangesApart(source: Json, derived: Json, path: seq<string>)
    requires WellFormed(source) && Diff(source, derived, path).Ok?
    ensures AllApart(Diff(source, derived, path).value)
    decreases source, Size(source), 1
  {
    if Aligned(source, derived) {
      DiffIs(source, derived, path);
      PartialApart(source, derived, path, Size(source));
    }
  }

  lemma {:induction false} PartialApart(source: Json, derived: Json, path: seq<string>, k: nat)
    requires WellFormed(source) && Aligned(source, derived)
    requires k <= Size(source) && Partial(source, derived, path, k).Ok?
    ensures AllApart(Partial(source, derived, path, k).value)
    decreases source, k, 0
  {
    hide ChildDiff, Aligned;
    if k > 0 {
      var before, last := Partial(source, derived, path, k - 1).value, ChildDiff(source, derived, path, k - 1).value;
      PartialApart(source, derived, path, k - 1);
      ChildApart(source, derived, path, k - 1);
      forall i, j | 0 <= i < |before| && 0 <= j < |last| ensures Apart(before[i], last[j]) {
        PartialMembers(source, derived, path, k - 1, before[i]);
        var c :| 0 <= c < k - 1 && FoundAt(source, derived, path, c, before[i]);
        assert FoundAt(source, derived, path, k - 1, last[j]);
        ChildrenEditsApart(source, derived, path, c, k - 1, before[i], last[j]);
      }
    }
  }

  lemma {:induction false} ChildApart(source: Json, derived: Json, path: seq<string>, k: nat)
    requires WellFormed(source) && Aligned(source, derived)
    requires k < Size(source) && ChildDiff(source, derived, path, k).Ok?
    ensures AllApart(ChildDiff(source, derived, path, k).value)
    decreases source, k, 0
  {
    if source.Dict? {
      ChangesApart(source.fields[k].value, Value(derived.fields, source.fields, k), ChildPath(source, path, k));
    } else if !Resized(source, derived) {
      ChangesApart(source.items[k], derived.items[k], ChildPath(source, path, k));
    }
  }
}
