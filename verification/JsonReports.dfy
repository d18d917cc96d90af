/** When a comparison reports nothing, when it is refused, and what its pointers name. */
module JsonReports {
  import opened Decimals
  import opened Wrappers
  import opened JsonValues
  import opened JsonDiff
  import opened JsonPatch

  // ----- nothing to report -----

  lemma {:induction false} PartialEmpty(source: Json, derived: Json, path: seq<string>, k: nat)
    requires Aligned(source, derived) && k <= Size(source)
    ensures Partial(source, derived, path, k) == Ok([]) <==>
      forall i {:trigger ChildDiff(source, derived, path, i)} :: 0 <= i < k ==>
        ChildDiff(source, derived, path, i) == Ok([])
  {
    hide ChildDiff, Aligned;
    if k > 0 {
      PartialEmpty(source, derived, path, k - 1);
      EmptyBoth(Partial(source, derived, path, k - 1), ChildDiff(source, derived, path, k - 1));
    }
  }

  lemma EmptyBoth(r: Result<seq<Edit>, DiffError>, s: Result<seq<Edit>, DiffError>)
    ensures Both(r, s) == Ok([]) <==> r == Ok([]) && s == Ok([])
  {
    if r.Ok? && s.Ok? {
      assert |r.value + s.value| == |r.value| + |s.value|;
    }
  }

  lemma {:induction false} AllMatched(items: seq<Json>, kept: seq<Json>, k: nat)
    requires k <= |items| && forall i :: 0 <= i < k ==> !Dropped(items, kept, i)
    ensures Matched(items, kept, k) == k
  {
    hide PyEq;
    if k > 0 {
      AllMatched(items, kept, k - 1);
      assert !Dropped(items, kept, k - 1);
    }
  }

  lemma ResizedReported(source: Json, derived: Json, path: seq<string>)
    requires Resized(source, derived)
    ensures Diff(source, derived, path) != Ok([])
  {
    hide Matched, PyEq, Decimal;
    DiffIs(source, derived, path);
    var n := |source.items|;
    PartialEmpty(source, derived, path, n);
    if Diff(source, derived, path) == Ok([]) {
      forall i | 0 <= i < n ensures !Dropped(source.items, derived.items, i) {
        assert ChildDiff(source, derived, path, i) == Ok([]);
      }
      AllMatched(source.items, derived.items, n);
    }
  }

  ghost predicate ChildEqual(source: Json, derived: Json, i: int)
    requires Aligned(source, derived) && !Resized(source, derived)
  {
    0 <= i < Size(source) ==>
      if source.Dict? then PyEq(source.fields[i].value, Value(derived.fields, source.fields, i))
      else PyEq(source.items[i], derived.items[i])
  }

  lemma EqualByChildren(source: Json, derived: Json)
    requires Aligned(source, derived) && !Resized(source, derived)
    ensures PyEq(source, derived) <==> forall i :: ChildEqual(source, derived, i)
  {
    if source.Dict? {
      if forall i :: ChildEqual(source, derived, i) {
        forall i | 0 <= i < |source.fields|
          ensures PyEq(source.fields[i].value, Value(derived.fields, source.fields, i))
        {
          assert ChildEqual(source, derived, i);
        }
      }
    } else {
      if forall i :: ChildEqual(source, derived, i) {
        forall i | 0 <= i < |source.items| ensures PyEq(source.items[i], derived.items[i]) {
          assert ChildEqual(source, derived, i);
        }
      }
    }
  }

  lemma {:induction false} ChildEmpty(source: Json, derived: Json, path: seq<string>, i: nat)
    requires Aligned(source, derived) && !Resized(source, derived) && i < Size(source)
    ensures ChildDiff(source, derived, path, i) == Ok([]) <==> ChildEqual(source, derived, i)
    decreases source, 0
  {
    if source.Dict? {
      EmptyIffEqual(source.fields[i].value, Value(derived.fields, source.fields, i), ChildPath(source, path, i));
    } else {
      EmptyIffEqual(source.items[i], derived.items[i], ChildPath(source, path, i));
    }
  }

  /** Nothing is reported exactly for documents that Python calls equal. */
  lemma {:induction false} EmptyIffEqual(source: Json, derived: Json, path: seq<string>)
    ensures Diff(source, derived, path) == Ok([]) <==> PyEq(source, derived)
    decreases source, 1
  {
    hide Diff, ChildDiff, PyEq, ChildEqual;
    if Resized(source, derived) {
      ResizedReported(source, derived, path);
      ResizedUnequal(source, derived);
    } else if Aligned(source, derived) {
      DiffIs(source, derived, path);
      PartialEmpty(source, derived, path, Size(source));
      EqualByChildren(source, derived);
      forall i | 0 <= i < Size(source)
        ensures ChildDiff(source, derived, path, i) == Ok([]) <==> ChildEqual(source, derived, i)
      {
        ChildEmpty(source, derived, path, i);
      }
      OutsideEqual(source, derived);
    } else {
      LeafEmpty(source, derived, path);
    }
  }

  lemma OutsideEqual(source: Json, derived: Json)
    requires Aligned(source, derived) && !Resized(source, derived)
    ensures forall i :: !(0 <= i < Size(source)) ==> ChildEqual(source, derived, i)
  {
  }

  lemma ResizedUnequal(source: Json, derived: Json)
    requires Resized(source, derived)
    ensures !PyEq(source, derived)
  {
  }

  lemma LeafEmpty(source: Json, derived: Json, path: seq<string>)
    requires !Aligned(source, derived)
    ensures Diff(source, derived, path) == Ok([]) <==> PyEq(source, derived)
  {
  }

  /** Equal documents need not be the same: a flag replaced by its number goes unreported. */
  lemma ReplacedFlagUnreported()
    ensures Diff(List([Bool(true)]), List([Int(1)]), []) == Ok([])
    ensures Diff(List([Int(1)]), List([Float(1.0)]), []) == Ok([])
    ensures List([Bool(true)]) != List([Int(1)]) && List([Int(1)]) != List([Float(1.0)])
  {
    assert PyEq(List([Bool(true)]), List([Int(1)]));
    EmptyIffEqual(List([Bool(true)]), List([Int(1)]), []);
    EmptyIffEqual(List([Int(1)]), List([Float(1.0)]), []);
  }

  // ----- what equality forgets -----

  /** A document without field order and without the kind of its numbers. */
  datatype Meaning =
    | Nothing
    | Quantity(x: real)
    | Text(s: string)
    | Listing(items: seq<Meaning>)
    | Record(fields: map<string, Meaning>)

  ghost function Meant(j: Json): Meaning {
    match j
    case Null => Nothing
    case Bool(flag) => Quantity(if flag then 1.0 else 0.0)
    case Int(n) => Quantity(n as real)
    case Float(x) => Quantity(x)
    case Str(s) => Text(s)
    case List(items) => Listing(seq(|items|, i requires 0 <= i < |items| => Meant(items[i])))
    case Dict(fields) => Record(map key | key in Keys(fields) :: Meant(Get(fields, key)))
  }

  lemma MeantItems(a: seq<Json>, b: seq<Json>)
    ensures Meant(List(a)) == Meant(List(b)) <==> |a| == |b| && forall i :: 0 <= i < |a| ==> Meant(a[i]) == Meant(b[i])
  {
    var x, y := Meant(List(a)).items, Meant(List(b)).items;
    assert |x| == |a| && |y| == |b|;
    if x == y {
      forall i | 0 <= i < |a| ensures Meant(a[i]) == Meant(b[i]) {
        assert x[i] == y[i];
      }
    }
  }

  lemma MeantDict(fields: seq<Field>)
    ensures Meant(Dict(fields)).Record? && Meant(Dict(fields)).fields.Keys == Keys(fields)
    ensures forall key :: key in Keys(fields) ==> Meant(Dict(fields)).fields[key] == Meant(Get(fields, key))
  {
  }

  lemma MeantFields(a: seq<Field>, b: seq<Field>)
    requires UniqueKeys(a)
    ensures Meant(Dict(a)) == Meant(Dict(b)) <==>
      (Keys(a) == Keys(b) && forall i :: 0 <= i < |a| ==> Meant(a[i].value) == Meant(Value(b, a, i)))
  {
    hide Meant, Keys, Get, UniqueKeys;
    MeantDict(a);
    MeantDict(b);
    if Keys(a) == Keys(b) {
      forall i | 0 <= i < |a|
        ensures a[i].key in Keys(a) && Meant(Dict(a)).fields[a[i].key] == Meant(a[i].value)
        ensures Meant(Dict(b)).fields[a[i].key] == Meant(Value(b, a, i))
      {
        GetAt(a, i);
      }
      if forall i :: 0 <= i < |a| ==> Meant(a[i].value) == Meant(Value(b, a, i)) {
        forall key | key in Keys(a) ensures Meant(Dict(a)).fields[key] == Meant(Dict(b)).fields[key] {
          var i := KeyAt(a, key);
          assert a[i].key == key;
        }
        assert Meant(Dict(a)).fields == Meant(Dict(b)).fields;
      }
    }
  }

  lemma KeyAt(fields: seq<Field>, key: string) returns (i: nat)
    requires key in Keys(fields)
    ensures i < |fields| && fields[i].key == key
  {
    var f :| f in fields && f.key == key;
    i :| 0 <= i < |fields| && fields[i] == f;
  }

  /** Python equality is equality of what the documents mean: the report is empty for no other pairs. */
  lemma {:induction false} EqualIffSameMeaning(a: Json, b: Json)
    requires WellFormed(a)
    ensures PyEq(a, b) <==> Meant(a) == Meant(b)
    decreases a
  {
    if a.List? && b.List? {
      MeantItems(a.items, b.items);
      forall i | 0 <= i < |a.items| && i < |b.items|
        ensures PyEq(a.items[i], b.items[i]) <==> Meant(a.items[i]) == Meant(b.items[i])
      {
        EqualIffSameMeaning(a.items[i], b.items[i]);
      }
    } else if a.Dict? && b.Dict? {
      MeantFields(a.fields, b.fields);
      if Keys(a.fields) == Keys(b.fields) {
        forall i | 0 <= i < |a.fields|
          ensures PyEq(a.fields[i].value, Value(b.fields, a.fields, i)) <==>
                  Meant(a.fields[i].value) == Meant(Value(b.fields, a.fields, i))
        {
          EqualIffSameMeaning(a.fields[i].value, Value(b.fields, a.fields, i));
        }
      }
    }
  }
}
