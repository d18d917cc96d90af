/** Parsed JSON documents under Python's equality. */
module JsonValues {
  import opened Wrappers

  datatype Json =
    | Null
    | Bool(flag: bool)
    | Int(n: int)
    | Float(x: real)
    | Str(s: string)
    | List(items: seq<Json>)
    | Dict(fields: seq<Field>)

  /** Fields stand in insertion order. */
  datatype Field = Field(key: string, value: Json)

  function Keys(fields: seq<Field>): set<string> {
    set f | f in fields :: f.key
  }

  predicate UniqueKeys(fields: seq<Field>) {
    forall i, j :: 0 <= i < j < |fields| ==> fields[i].key != fields[j].key
  }

  /** A dictionary has each key once. */
  predicate WellFormed(j: Json) {
    match j
    case List(items) => forall i | 0 <= i < |items| :: WellFormed(items[i])
    case Dict(fields) => UniqueKeys(fields) && forall i | 0 <= i < |fields| :: WellFormed(fields[i].value)
    case _ => true
  }

  function Get(fields: seq<Field>, key: string): (value: Json)
    requires key in Keys(fields)
    ensures Field(key, value) in fields
  {
    if fields[0].key == key then fields[0].value else Get(fields[1..], key)
  }

  lemma {:induction false} GetAt(fields: seq<Field>, k: nat)
    requires UniqueKeys(fields) && k < |fields|
    ensures fields[k].key in Keys(fields)
    ensures Get(fields, fields[k].key) == fields[k].value
  {
    assert fields[k] in fields;
    if k > 0 {
      assert fields[0].key != fields[k].key;
      GetAt(fields[1..], k - 1);
    }
  }

  /** bool, int and float compare by value. */
  function Number(j: Json): Option<real> {
    match j
    case Bool(flag) => Some(if flag then 1.0 else 0.0)
    case Int(n) => Some(n as real)
    case Float(x) => Some(x)
    case _ => None
  }

  /** Python's `==`. */
  predicate PyEq(a: Json, b: Json) {
    if Number(a).Some? && Number(b).Some? then Number(a) == Number(b)
    else if a.List? && b.List? then
      |a.items| == |b.items| && forall i | 0 <= i < |a.items| :: PyEq(a.items[i], b.items[i])
    else if a.Dict? && b.Dict? then
      Keys(a.fields) == Keys(b.fields) &&
      forall i | 0 <= i < |a.fields| :: PyEq(a.fields[i].value, Value(b.fields, a.fields, i))
    else a == b
  }

  function Value(fields: seq<Field>, others: seq<Field>, i: nat): Json
    requires Keys(others) == Keys(fields) && i < |others|
  {
    assert others[i].key in Keys(others);
    Get(fields, others[i].key)
  }

  lemma {:induction false} PyEqReflexive(j: Json)
    requires WellFormed(j)
    ensures PyEq(j, j)
  {
    match j
    case List(items) =>
      forall i | 0 <= i < |items| ensures PyEq(items[i], items[i]) {
        PyEqReflexive(items[i]);
      }
    case Dict(fields) =>
      forall i | 0 <= i < |fields| ensures PyEq(fields[i].value, Value(fields, fields, i)) {
        GetAt(fields, i);
        PyEqReflexive(fields[i].value);
      }
    case _ =>
  }
}
