/** Applying the reported changes, and what an empty report or an accepted one means. */
module JsonReplay {
  import opened Decimals
  import opened JsonValues
  import opened JsonDiff
  import opened JsonPatch

  // ----- applying changes -----

  ghost predicate Replaced(edits: seq<Edit>, path: seq<string>, e: Edit) {
    e in edits && e.Modified? && e.path == path
  }

  ghost predicate Deleted(edits: seq<Edit>, path: seq<string>) {
    exists e :: e in edits && e.Removed? && e.path == path
  }

  /** The document at `path` after all changes at once. */
  ghost function Replay(source: Json, path: seq<string>, edits: seq<Edit>): Json
    decreases source
  {
    if exists e :: Replaced(edits, path, e) then
      var e :| Replaced(edits, path, e); e.after
    else match source
      case Dict(fields) => Dict(ReplayFields(source, path, edits, |fields|))
      case List(items) => List(ReplayItems(source, path, edits, |items|))
      case _ => source
  }

  ghost function ReplayFields(source: Json, path: seq<string>, edits: seq<Edit>, k: nat): seq<Field>
    requires source.Dict? && k <= |source.fields|
    decreases source, k
  {
    if k == 0 then []
    else
      var field := source.fields[k - 1];
      ReplayFields(source, path, edits, k - 1) + [Field(field.key, Replay(field.value, path + [field.key], edits))]
  }

  ghost function ReplayItems(source: Json, path: seq<string>, edits: seq<Edit>, k: nat): seq<Json>
    requires source.List? && k <= |source.items|
    decreases source, k
  {
    if k == 0 then []
    else
      ReplayItems(source, path, edits, k - 1) +
      if Deleted(edits, path + [Decimal(k - 1)]) then []
      else [Replay(source.items[k - 1], path + [Decimal(k - 1)], edits)]
  }

  // ----- places without changes -----

  ghost predicate NoneBelow(edits: seq<Edit>, path: seq<string>) {
    forall e :: e in edits ==> !(path <= e.path)
  }

  lemma NoneBelowChild(edits: seq<Edit>, path: seq<string>, token: string)
    requires NoneBelow(edits, path)
    ensures NoneBelow(edits, path + [token])
  {
    assert path <= path + [token];
    forall e | e in edits ensures !(path + [token] <= e.path) {
      assert path + [token] <= e.path ==> path <= e.path;
    }
  }

  lemma {:induction false} ReplayUntouched(source: Json, path: seq<string>, edits: seq<Edit>)
    requires NoneBelow(edits, path)
    ensures Replay(source, path, edits) == source
    decreases source, Size(source), 1
  {
    match source
    case Dict(fields) =>
      FieldsUntouched(source, path, edits, |fields|);
      assert fields[..|fields|] == fields;
    case List(items) =>
      ItemsUntouched(source, path, edits, |items|);
      assert items[..|items|] == items;
    case _ =>
  }

  lemma {:induction false} FieldsUntouched(source: Json, path: seq<string>, edits: seq<Edit>, k: nat)
    requires NoneBelow(edits, path) && source.Dict? && k <= |source.fields|
    ensures ReplayFields(source, path, edits, k) == source.fields[..k]
    decreases source, k, 0
  {
    hide Replay, NoneBelow;
    if k > 0 {
      FieldsUntouched(source, path, edits, k - 1);
      NoneBelowChild(edits, path, source.fields[k - 1].key);
      ReplayUntouched(source.fields[k - 1].value, path + [source.fields[k - 1].key], edits);
    }
  }

  lemma {:induction false} ItemsUntouched(source: Json, path: seq<string>, edits: seq<Edit>, k: nat)
    requires NoneBelow(edits, path) && source.List? && k <= |source.items|
    ensures ReplayItems(source, path, edits, k) == source.items[..k]
    decreases source, k, 0
  {
    hide Replay, Decimal;
    if k > 0 {
      ItemsUntouched(source, path, edits, k - 1);
      NoneBelowChild(edits, path, Decimal(k - 1));
      ReplayUntouched(source.items[k - 1], path + [Decimal(k - 1)], edits);
    }
  }

  // ----- the derivative is restored -----

  /** Below `path`, `edits` holds exactly the changes found there. */
  ghost predicate Agrees(edits: seq<Edit>, found: seq<Edit>, path: seq<string>) {
    forall e: Edit :: path <= e.path ==> (e in edits <==> e in found)
  }

  lemma AgreesBelow(source: Json, derived: Json, path: seq<string>, edits: seq<Edit>, k: nat)
    requires WellFormed(source) && Aligned(source, derived) && k < Size(source)
    requires Diff(source, derived, path).Ok? && Agrees(edits, Diff(source, derived, path).value, path)
    ensures ChildDiff(source, derived, path, k).Ok?
    ensures Agrees(edits, ChildDiff(source, derived, path, k).value, ChildPath(source, path, k))
  {
    hide ChildDiff, Aligned, WellFormed, Diff, ChildPath;
    DiffIs(source, derived, path);
    var n := Size(source);
    PartialOk(source, derived, path, k, n);
    forall e: Edit | ChildPath(source, path, k) <= e.path
      ensures e in edits <==> e in ChildDiff(source, derived, path, k).value
    {
      ChildPathBelow(source, path, k);
      assert path <= e.path;
      PartialMembers(source, derived, path, n, e);
      if e in edits {
        var j :| 0 <= j < n && FoundAt(source, derived, path, j, e);
        FoundBelow(source, derived, path, j, e);
        ChildrenApart(source, path, j, k, e.path);
      } else {
        assert !FoundAt(source, derived, path, k, e);
      }
    }
  }

  lemma ChildPathBelow(source: Json, path: seq<string>, k: nat)
    requires k < Size(source)
    ensures path <= ChildPath(source, path, k) && path != ChildPath(source, path, k)
  {
  }

  lemma NothingReplacedHere(source: Json, derived: Json, path: seq<string>, edits: seq<Edit>)
    requires Aligned(source, derived)
    requires Diff(source, derived, path).Ok? && Agrees(edits, Diff(source, derived, path).value, path)
    ensures forall e :: !Replaced(edits, path, e)
  {
    hide Diff, Aligned;
    forall e | Replaced(edits, path, e) ensures false {
      ChangesBelow(source, derived, path, e);
    }
  }

  lemma {:induction false} ReplayRestores(source: Json, derived: Json, path: seq<string>, edits: seq<Edit>)
    requires WellFormed(source) && WellFormed(derived)
    requires Diff(source, derived, path).Ok? && Agrees(edits, Diff(source, derived, path).value, path)
    ensures PyEq(Replay(source, path, edits), derived)
    decreases source
  {
    if Aligned(source, derived) {
      NothingReplacedHere(source, derived, path, edits);
      forall k | 0 <= k < Size(source)
        ensures ChildDiff(source, derived, path, k).Ok?
        ensures Agrees(edits, ChildDiff(source, derived, path, k).value, ChildPath(source, path, k))
      {
        AgreesBelow(source, derived, path, edits, k);
      }
      if source.Dict? {
        DictRestored(source, derived, path, edits);
      } else if !Resized(source, derived) {
        ListRestored(source, derived, path, edits);
      } else {
        DiffIs(source, derived, path);
        PrefixRestored(source, derived, path, edits, |source.items|);
      }
    } else if PyEq(source, derived) {
      assert NoneBelow(edits, path);
      ReplayUntouched(source, path, edits);
    } else {
      var e := Modified(path, source, derived);
      assert Replaced(edits, path, e);
      PyEqReflexive(derived);
    }
  }

  /** The changes below each child are those found at that child. */
  ghost predicate Split(source: Json, derived: Json, path: seq<string>, edits: seq<Edit>) {
    && Aligned(source, derived) && WellFormed(source) && WellFormed(derived)
    && forall k {:trigger ChildDiff(source, derived, path, k)} :: 0 <= k < Size(source) ==>
      && ChildDiff(source, derived, path, k).Ok?
      && Agrees(edits, ChildDiff(source, derived, path, k).value, ChildPath(source, path, k))
  }

  lemma {:induction false} FieldsAre(source: Json, path: seq<string>, edits: seq<Edit>, k: nat)
    requires source.Dict? && k <= |source.fields|
    ensures var r := ReplayFields(source, path, edits, k);
      |r| == k && forall i {:trigger r[i]} :: 0 <= i < k ==>
        r[i].key == source.fields[i].key &&
        r[i].value == Replay(source.fields[i].value, ChildPath(source, path, i), edits)
  {
    hide Replay;
    if k > 0 {
      FieldsAre(source, path, edits, k - 1);
    }
  }

  lemma SameKeys(a: seq<Field>, b: seq<Field>)
    requires |a| == |b| && forall i :: 0 <= i < |a| ==> a[i].key == b[i].key
    ensures Keys(a) == Keys(b)
  {
    forall key ensures key in Keys(a) <==> key in Keys(b) {
      if key in Keys(a) {
        var f :| f in a && f.key == key;
        var i :| 0 <= i < |a| && a[i] == f;
        assert b[i] in b;
      }
      if key in Keys(b) {
        var f :| f in b && f.key == key;
        var i :| 0 <= i < |b| && b[i] == f;
        assert a[i] in a;
      }
    }
  }

  lemma WellFormedValue(fields: seq<Field>, others: seq<Field>, i: nat)
    requires Keys(others) == Keys(fields) && i < |others| && WellFormed(Dict(fields))
    ensures WellFormed(Value(fields, others, i))
  {
    var value := Value(fields, others, i);
    assert Field(others[i].key, value) in fields;
  }

  lemma {:induction false} DictRestored(source: Json, derived: Json, path: seq<string>, edits: seq<Edit>)
    requires source.Dict? && Split(source, derived, path, edits)
    requires forall e :: !Replaced(edits, path, e)
    ensures PyEq(Replay(source, path, edits), derived)
    decreases source, 0
  {
    hide Diff, Agrees;
    var n := |source.fields|;
    var r := ReplayFields(source, path, edits, n);
    FieldsAre(source, path, edits, n);
    SameKeys(r, source.fields);
    forall i | 0 <= i < |r| ensures PyEq(r[i].value, Value(derived.fields, r, i)) {
      assert ChildDiff(source, derived, path, i).Ok?;
      WellFormedValue(derived.fields, source.fields, i);
      ReplayRestores(source.fields[i].value, Value(derived.fields, source.fields, i),
                     ChildPath(source, path, i), edits);
    }
    assert Replay(source, path, edits) == Dict(r);
  }

  lemma {:induction false} ItemsAre(source: Json, path: seq<string>, edits: seq<Edit>, k: nat)
    requires source.List? && k <= |source.items|
    requires forall i :: 0 <= i < k ==> !Deleted(edits, ChildPath(source, path, i))
    ensures var r := ReplayItems(source, path, edits, k);
      |r| == k && forall i {:trigger r[i]} :: 0 <= i < k ==>
        r[i] == Replay(source.items[i], ChildPath(source, path, i), edits)
  {
    hide Replay, Deleted, Decimal;
    if k > 0 {
      assert ChildPath(source, path, k - 1) == path + [Decimal(k - 1)];
      ItemsAre(source, path, edits, k - 1);
    }
  }

  lemma ChildKept(source: Json, derived: Json, path: seq<string>, edits: seq<Edit>, i: nat)
    requires Split(source, derived, path, edits) && !Resized(source, derived) && i < Size(source)
    ensures !Deleted(edits, ChildPath(source, path, i))
  {
    hide Diff, WellFormed;
    var p := ChildPath(source, path, i);
    forall e | e in edits && e.path == p ensures !e.Removed? {
      assert e in ChildDiff(source, derived, path, i).value;
      assert FoundAt(source, derived, path, i, e);
      FoundBelow(source, derived, path, i, e);
    }
  }

  lemma {:induction false} ListRestored(source: Json, derived: Json, path: seq<string>, edits: seq<Edit>)
    requires source.List? && Split(source, derived, path, edits) && !Resized(source, derived)
    requires forall e :: !Replaced(edits, path, e)
    ensures PyEq(Replay(source, path, edits), derived)
    decreases source, 0
  {
    hide Diff, Agrees, Decimal;
    var n := |source.items|;
    forall i | 0 <= i < n ensures !Deleted(edits, ChildPath(source, path, i)) {
      ChildKept(source, derived, path, edits, i);
    }
    ItemsAre(source, path, edits, n);
    var r := ReplayItems(source, path, edits, n);
    forall i | 0 <= i < n ensures PyEq(r[i], derived.items[i]) {
      assert ChildDiff(source, derived, path, i).Ok?;
      ReplayRestores(source.items[i], derived.items[i], ChildPath(source, path, i), edits);
    }
    assert Replay(source, path, edits) == List(r);
  }

  ghost predicate PrefixEq(r: seq<Json>, kept: seq<Json>, n: nat) {
    |r| == n <= |kept| && forall i :: 0 <= i < n ==> PyEq(r[i], kept[i])
  }

  lemma DroppedDeleted(source: Json, derived: Json, path: seq<string>, edits: seq<Edit>, i: nat)
    requires Split(source, derived, path, edits) && Resized(source, derived) && i < Size(source)
    ensures Deleted(edits, ChildPath(source, path, i)) <==> Dropped(source.items, derived.items, i)
    ensures !Dropped(source.items, derived.items, i) ==> NoneBelow(edits, ChildPath(source, path, i))
  {
    hide Dropped, WellFormed, Decimal;
    var p := ChildPath(source, path, i);
    assert ChildDiff(source, derived, path, i).Ok?;
    if Dropped(source.items, derived.items, i) {
      assert Removed(p, source.items[i]) in edits;
    } else {
      assert ChildDiff(source, derived, path, i).value == [];
    }
  }

  /** What is left of the first `k` items is what the greedy pass has matched. */
  lemma {:induction false} PrefixRestored(source: Json, derived: Json, path: seq<string>, edits: seq<Edit>, k: nat)
    requires Split(source, derived, path, edits) && Resized(source, derived) && k <= |source.items|
    ensures PrefixEq(ReplayItems(source, path, edits, k), derived.items, Matched(source.items, derived.items, k))
    decreases source, k
  {
    hide Split, Replay, Deleted, Decimal, PyEq;
    if k > 0 {
      var i := k - 1;
      PrefixRestored(source, derived, path, edits, i);
      DroppedDeleted(source, derived, path, edits, i);
      assert ChildPath(source, path, i) == path + [Decimal(i)];
      if !Dropped(source.items, derived.items, i) {
        ReplayUntouched(source.items[i], ChildPath(source, path, i), edits);
      }
    }
  }

  /** The reported changes, applied to the source, give a document equal to the derivative. */
  lemma PatchIsCorrect(source: Json, derived: Json)
    requires WellFormed(source) && WellFormed(derived) && Diff(source, derived, []).Ok?
    ensures PyEq(Replay(source, [], Diff(source, derived, []).value), derived)
  {
    ReplayRestores(source, derived, [], Diff(source, derived, []).value);
  }
}
