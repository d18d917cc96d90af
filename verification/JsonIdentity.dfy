/** When applying the reported changes gives the derivative itself, and not only a document equal to it. */
module JsonIdentity {
  import opened Decimals
  import opened JsonValues
  import opened JsonDiff
  import opened JsonPatch
  import opened JsonReplay

  /** The items that the greedy pass keeps, of the first `k`. */
  function Kept(items: seq<Json>, kept: seq<Json>, k: nat): seq<Json>
    requires k <= |items|
  {
    if k == 0 then []
    else Kept(items, kept, k - 1) + if Dropped(items, kept, k - 1) then [] else [items[k - 1]]
  }

  predicate SameOrder(a: seq<Field>, b: seq<Field>) {
    |a| == |b| && forall i :: 0 <= i < |a| ==> a[i].key == b[i].key
  }

  /** The derivative has every dictionary's fields in the source's order, keeps list items as they are, and differs from
      the source only where Python can tell. */
  predicate Twin(source: Json, derived: Json)
    decreases source
  {
    if source.Dict? && derived.Dict? then
      SameOrder(source.fields, derived.fields) &&
      forall i | 0 <= i < |source.fields| :: Twin(source.fields[i].value, derived.fields[i].value)
    else if source.List? && derived.List? then
      if |source.items| == |derived.items| then
        forall i | 0 <= i < |source.items| :: Twin(source.items[i], derived.items[i])
      else Kept(source.items, derived.items, |source.items|) == derived.items
    else PyEq(source, derived) ==> source == derived
  }

  /** What is left of a shortened list is what the greedy pass keeps. */
  lemma {:induction false} KeptAre(source: Json, derived: Json, path: seq<string>, edits: seq<Edit>, k: nat)
    requires Split(source, derived, path, edits) && Resized(source, derived) && k <= |source.items|
    ensures ReplayItems(source, path, edits, k) == Kept(source.items, derived.items, k)
    decreases source, k
  {
    hide Split, Replay, Deleted, Decimal, Dropped;
    if k > 0 {
      var i := k - 1;
      KeptAre(source, derived, path, edits, i);
      DroppedDeleted(source, derived, path, edits, i);
      assert ChildPath(source, path, i) == path + [Decimal(i)];
      if !Dropped(source.items, derived.items, i) {
        ReplayUntouched(source.items[i], ChildPath(source, path, i), edits);
      }
    }
  }

  lemma ValueInOrder(a: seq<Field>, b: seq<Field>, i: nat)
    requires Keys(a) == Keys(b) && UniqueKeys(b) && SameOrder(a, b) && i < |a|
    ensures Value(b, a, i) == b[i].value
  {
    GetAt(b, i);
  }

  lemma {:induction false} DictIdentical(source: Json, derived: Json, path: seq<string>, edits: seq<Edit>)
    requires source.Dict? && Split(source, derived, path, edits)
    requires forall e :: !Replaced(edits, path, e)
    ensures Replay(source, path, edits) == derived <==> Twin(source, derived)
    decreases source, 0
  {
    hide Diff, Agrees, Keys, UniqueKeys;
    var n := |source.fields|;
    var r := ReplayFields(source, path, edits, n);
    FieldsAre(source, path, edits, n);
    assert Replay(source, path, edits) == Dict(r);
    if SameOrder(source.fields, derived.fields) {
      forall i | 0 <= i < n
        ensures r[i].value == derived.fields[i].value <==> Twin(source.fields[i].value, derived.fields[i].value)
      {
        assert ChildDiff(source, derived, path, i).Ok?;
        ValueInOrder(source.fields, derived.fields, i);
        ReplayIdentical(source.fields[i].value, derived.fields[i].value, ChildPath(source, path, i), edits);
      }
      if Twin(source, derived) {
        assert forall i :: 0 <= i < n ==> r[i] == derived.fields[i];
      }
    }
  }

  lemma {:induction false} ListIdentical(source: Json, derived: Json, path: seq<string>, edits: seq<Edit>)
    requires source.List? && Split(source, derived, path, edits) && !Resized(source, derived)
    requires forall e :: !Replaced(edits, path, e)
    ensures Replay(source, path, edits) == derived <==> Twin(source, derived)
    decreases source, 0
  {
    hide Diff, Agrees, Decimal;
    var n := |source.items|;
    forall i | 0 <= i < n ensures !Deleted(edits, ChildPath(source, path, i)) {
      ChildKept(source, derived, path, edits, i);
    }
    ItemsAre(source, path, edits, n);
    var r := ReplayItems(source, path, edits, n);
    assert Replay(source, path, edits) == List(r);
    forall i | 0 <= i < n ensures r[i] == derived.items[i] <==> Twin(source.items[i], derived.items[i]) {
      assert ChildDiff(source, derived, path, i).Ok?;
      ReplayIdentical(source.items[i], derived.items[i], ChildPath(source, path, i), edits);
    }
  }

  lemma {:induction false} ReplayIdentical(source: Json, derived: Json, path: seq<string>, edits: seq<Edit>)
    requires WellFormed(source) && WellFormed(derived)
    requires Diff(source, derived, path).Ok? && Agrees(edits, Diff(source, derived, path).value, path)
    ensures Replay(source, path, edits) == derived <==> Twin(source, derived)
    decreases source
  {
    if Aligned(source, derived) {
      NothingReplacedHere(source, derived, path, edits);
      forall k | 0 <= k < Size(source)
        ensures ChildDiff(source, derived, path, k).Ok?
        ensures Agrees(edits, ChildDiff(source, derived, path, k).value, ChildPath(source, path, k))
      {
        AgreesBelow(source, derived, path, edits, k);
      }
      if source.Dict? {
        DictIdentical(source, derived, path, edits);
      } else if !Resized(source, derived) {
        ListIdentical(source, derived, path, edits);
      } else {
        KeptAre(source, derived, path, edits, |source.items|);
      }
    } else if PyEq(source, derived) {
      assert NoneBelow(edits, path);
      ReplayUntouched(source, path, edits);
    } else {
      assert Replaced(edits, path, Modified(path, source, derived));
    }
  }

  /** The patch gives the derivative itself exactly when the derivative is a twin of the source. */
  lemma PatchIsIdentical(source: Json, derived: Json)
    requires WellFormed(source) && WellFormed(derived) && Diff(source, derived, []).Ok?
    ensures Replay(source, [], Diff(source, derived, []).value) == derived <==> Twin(source, derived)
  {
    ReplayIdentical(source, derived, [], Diff(source, derived, []).value);
  }
}
