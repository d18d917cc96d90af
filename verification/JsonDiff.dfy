/** The structural difference of two documents (`_semantic_changes`). */
module JsonDiff {
  import opened Decimals
  import opened Wrappers
  import opened JsonPointer
  import opened JsonValues

  datatype DiffError = FieldSetChanged | NotRemovalOnly

  /** One reported change, at the path of its value in the source. */
  datatype Edit =
    | Modified(path: seq<string>, before: Json, after: Json)
    | Removed(path: seq<string>, before: Json)

  function Both(r: Result<seq<Edit>, DiffError>, s: Result<seq<Edit>, DiffError>): Result<seq<Edit>, DiffError> {
    if r.Err? then r else if s.Err? then s else Ok(r.value + s.value)
  }

  // ----- removal from lists -----

  /** How much of `kept` the first `k` items match, each taking the earliest item left. */
  function Matched(items: seq<Json>, kept: seq<Json>, k: nat): (j: nat)
    requires k <= |items|
    ensures j <= k && j <= |kept|
  {
    if k == 0 then 0
    else
      var j := Matched(items, kept, k - 1);
      if j < |kept| && PyEq(items[k - 1], kept[j]) then j + 1 else j
  }

  /** Item `k` is passed over. */
  predicate Dropped(items: seq<Json>, kept: seq<Json>, k: nat)
    requires k < |items|
  {
    Matched(items, kept, k + 1) == Matched(items, kept, k)
  }

  function Removals(items: seq<Json>, kept: seq<Json>, path: seq<string>, k: nat): seq<Edit>
    requires k <= |items|
  {
    if k == 0 then []
    else Removals(items, kept, path, k - 1) +
         if Dropped(items, kept, k - 1) then [Removed(path + [Decimal(k - 1)], items[k - 1])] else []
  }

  // ----- the recursive comparison -----

  function Diff(source: Json, derived: Json, path: seq<string>): Result<seq<Edit>, DiffError>
    decreases source
  {
    if source.Dict? && derived.Dict? then
      if Keys(source.fields) != Keys(derived.fields) then Err(FieldSetChanged)
      else FieldDiff(source, derived, path, |source.fields|)
    else if source.List? && derived.List? then
      if |source.items| == |derived.items| then ItemDiff(source, derived, path, |source.items|)
      else if Matched(source.items, derived.items, |source.items|) != |derived.items| then Err(NotRemovalOnly)
      else Ok(Removals(source.items, derived.items, path, |source.items|))
    else if !PyEq(source, derived) then Ok([Modified(path, source, derived)])
    else Ok([])
  }

  /** Changes in the first `k` fields. */
  function FieldDiff(source: Json, derived: Json, path: seq<string>, k: nat): Result<seq<Edit>, DiffError>
    requires source.Dict? && derived.Dict? && Keys(source.fields) == Keys(derived.fields) && k <= |source.fields|
    decreases source, k
  {
    if k == 0 then Ok([])
    else
      var field := source.fields[k - 1];
      Both(FieldDiff(source, derived, path, k - 1),
           Diff(field.value, Value(derived.fields, source.fields, k - 1), path + [field.key]))
  }

  /** Changes in the first `k` items. */
  function ItemDiff(source: Json, derived: Json, path: seq<string>, k: nat): Result<seq<Edit>, DiffError>
    requires source.List? && derived.List? && |source.items| == |derived.items| && k <= |source.items|
    decreases source, k
  {
    if k == 0 then Ok([])
    else
      Both(ItemDiff(source, derived, path, k - 1),
           Diff(source.items[k - 1], derived.items[k - 1], path + [Decimal(k - 1)]))
  }

  // ----- the recorded changes -----

  datatype ChangeKind = MODIFIED | REMOVED

  /** A change as the manifest records it, with the values in place of their hashes. */
  datatype ChangedValue = ChangedValue(pointer: string, kind: ChangeKind, source: Json, derived: Option<Json>)

  function Recorded(e: Edit): ChangedValue {
    match e
    case Modified(path, before, after) => ChangedValue(Encode(path), MODIFIED, before, Some(after))
    case Removed(path, before) => ChangedValue(Encode(path), REMOVED, before, None)
  }

  ghost function Record(edits: seq<Edit>): seq<ChangedValue> {
    seq(|edits|, i requires 0 <= i < |edits| => Recorded(edits[i]))
  }

  ghost predicate Records(r: Result<seq<ChangedValue>, DiffError>, d: Result<seq<Edit>, DiffError>) {
    match r
    case Err(e) => d == Err(e)
    case Ok(changes) => d.Ok? && changes == Record(d.value)
  }

  lemma RecordConcat(a: seq<Edit>, b: seq<Edit>)
    ensures Record(a + b) == Record(a) + Record(b)
  {
  }

  /** One greedy pass over the source list. */
  method ListRemovals(items: seq<Json>, kept: seq<Json>, pointer: string, ghost path: seq<string>)
    returns (r: Result<seq<ChangedValue>, DiffError>)
    requires pointer == Encode(path)
    ensures r.Err? <==> Matched(items, kept, |items|) != |kept|
    ensures r.Err? ==> r.error == NotRemovalOnly
    ensures r.Ok? ==> r.value == Record(Removals(items, kept, path, |items|))
  {
    hide Encode, Decimal, Escape;
    var result: seq<ChangedValue> := [];
    var derivedIndex := 0;
    for i := 0 to |items|
      invariant derivedIndex == Matched(items, kept, i)
      invariant result == Record(Removals(items, kept, path, i))
    {
      if derivedIndex < |kept| && PyEq(items[i], kept[derivedIndex]) {
        derivedIndex := derivedIndex + 1;
      } else {
        EncodeSnoc(path, Decimal(i));
        EscapeDecimal(i);
        RecordConcat(Removals(items, kept, path, i), [Removed(path + [Decimal(i)], items[i])]);
        result := result + [ChangedValue(pointer + "/" + Decimal(i), REMOVED, items[i], None)];
      }
    }
    if derivedIndex != |kept| {
      return Err(NotRemovalOnly);
    }
    return Ok(result);
  }

  /** The reported changes, or the first error. */
  method SemanticChanges(source: Json, derived: Json, pointer: string, ghost path: seq<string>)
    returns (r: Result<seq<ChangedValue>, DiffError>)
    requires pointer == Encode(path)
    ensures Records(r, Diff(source, derived, path))
    decreases source, 1
  {
    hide Encode, Decimal, Escape, Matched, Removals;
    if source.Dict? && derived.Dict? {
      if Keys(source.fields) != Keys(derived.fields) {
        return Err(FieldSetChanged);
      }
      r := FieldChanges(source, derived, pointer, path);
    } else if source.List? && derived.List? {
      if |source.items| == |derived.items| {
        r := ItemChanges(source, derived, pointer, path);
      } else {
        r := ListRemovals(source.items, derived.items, pointer, path);
      }
    } else if !PyEq(source, derived) {
      return Ok([ChangedValue(pointer, MODIFIED, source, Some(derived))]);
    } else {
      return Ok([]);
    }
  }

  lemma {:induction false} FieldErrorStays(source: Json, derived: Json, path: seq<string>, k: nat, e: DiffError)
    requires source.Dict? && derived.Dict? && Keys(source.fields) == Keys(derived.fields) && k <= |source.fields|
    requires FieldDiff(source, derived, path, k) == Err(e)
    ensures FieldDiff(source, derived, path, |source.fields|) == Err(e)
    decreases |source.fields| - k
  {
    if k < |source.fields| {
      FieldErrorStays(source, derived, path, k + 1, e);
    }
  }

  method FieldChanges(source: Json, derived: Json, pointer: string, ghost path: seq<string>)
    returns (r: Result<seq<ChangedValue>, DiffError>)
    requires pointer == Encode(path)
    requires source.Dict? && derived.Dict? && Keys(source.fields) == Keys(derived.fields)
    ensures Records(r, FieldDiff(source, derived, path, |source.fields|))
    decreases source, 0
  {
    hide Encode, Escape, Diff;
    var result: seq<ChangedValue> := [];
    for k := 0 to |source.fields|
      invariant Records(Ok(result), FieldDiff(source, derived, path, k))
    {
      var field := source.fields[k];
      EncodeSnoc(path, field.key);
      var changes := SemanticChanges(field.value, Value(derived.fields, source.fields, k),
                                     pointer + "/" + Escape(field.key), path + [field.key]);
      if changes.Err? {
        FieldErrorStays(source, derived, path, k + 1, changes.error);
        return changes;
      }
      RecordConcat(FieldDiff(source, derived, path, k).value,
                   Diff(field.value, Value(derived.fields, source.fields, k), path + [field.key]).value);
      result := result + changes.value;
    }
    return Ok(result);
  }

  lemma {:induction false} ItemErrorStays(source: Json, derived: Json, path: seq<string>, k: nat, e: DiffError)
    requires source.List? && derived.List? && |source.items| == |derived.items| && k <= |source.items|
    requires ItemDiff(source, derived, path, k) == Err(e)
    ensures ItemDiff(source, derived, path, |source.items|) == Err(e)
    decreases |source.items| - k
  {
    if k < |source.items| {
      ItemErrorStays(source, derived, path, k + 1, e);
    }
  }

  method ItemChanges(source: Json, derived: Json, pointer: string, ghost path: seq<string>)
    returns (r: Result<seq<ChangedValue>, DiffError>)
    requires pointer == Encode(path)
    requires source.List? && derived.List? && |source.items| == |derived.items|
    ensures Records(r, ItemDiff(source, derived, path, |source.items|))
    decreases source, 0
  {
    hide Encode, Escape, Decimal, Diff;
    var result: seq<ChangedValue> := [];
    for k := 0 to |source.items|
      invariant Records(Ok(result), ItemDiff(source, derived, path, k))
    {
      EncodeSnoc(path, Decimal(k));
      EscapeDecimal(k);
      var changes := SemanticChanges(source.items[k], derived.items[k],
                                     pointer + "/" + Decimal(k), path + [Decimal(k)]);
      if changes.Err? {
        ItemErrorStays(source, derived, path, k + 1, changes.error);
        return changes;
      }
      RecordConcat(ItemDiff(source, derived, path, k).value,
                   Diff(source.items[k], derived.items[k], path + [Decimal(k)]).value);
      result := result + changes.value;
    }
    return Ok(result);
  }
}
