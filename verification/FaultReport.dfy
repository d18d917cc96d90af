/** The change report of one injected fault (`inject_fault`). */
module FaultReport {
  import opened Wrappers
  import opened JsonPointer
  import opened JsonValues
  import opened JsonDiff
  import opened JsonPatch
  import opened JsonReplay
  import opened JsonReports
  import opened JsonAcceptance

  datatype ReportError = Refused(reason: DiffError) | Unchanged

  /** What a recorded change says: the value at its pointer goes, or another takes its place. */
  ghost predicate Says(c: ChangedValue, e: Edit) {
    Decode(c.pointer) == Some(e.path) && c.source == e.before &&
    match c.kind
    case REMOVED => e.Removed? && c.derived.None?
    case MODIFIED => e.Modified? && c.derived == Some(e.after)
  }

  ghost predicate SaysAll(changes: seq<ChangedValue>, edits: seq<Edit>) {
    |changes| == |edits| && forall i :: 0 <= i < |changes| ==> Says(changes[i], edits[i])
  }

  /** What the changes say, done to the source, gives a document equal to the derivative. */
  ghost predicate Explains(source: Json, derived: Json, edits: seq<Edit>, changes: seq<ChangedValue>) {
    SaysAll(changes, edits) && PyEq(Replay(source, [], edits), derived)
  }

  /** A replaced value is not equal to its replacement, and the two are neither both dictionaries nor both lists. */
  ghost predicate Deep(c: ChangedValue) {
    c.derived.Some? ==>
      !PyEq(c.source, c.derived.value) && !(c.source.Dict? && c.derived.value.Dict?) &&
      !(c.source.List? && c.derived.value.List?)
  }

  lemma RecordDeep(source: Json, derived: Json)
    requires Diff(source, derived, []).Ok?
    ensures forall c :: c in JsonDiff.Record(Diff(source, derived, []).value) ==> Deep(c)
  {
    hide Diff, PyEq, Encode;
    var edits := Diff(source, derived, []).value;
    forall c | c in JsonDiff.Record(edits) ensures Deep(c) {
      var i :| 0 <= i < |edits| && c == Recorded(edits[i]);
      ChangesMinimal(source, derived, [], edits[i]);
    }
  }

  lemma RecordSays(edits: seq<Edit>)
    ensures SaysAll(JsonDiff.Record(edits), edits)
  {
    hide Encode, Decode;
    forall i | 0 <= i < |edits| ensures Says(Recorded(edits[i]), edits[i]) {
      DecodeEncode(edits[i].path);
    }
  }

  /** A fault is reported exactly when it is acceptable and changes what the document means. */
  method ReportChanges(source: Json, derived: Json) returns (r: Result<seq<ChangedValue>, ReportError>)
    requires WellFormed(source) && WellFormed(derived)
    ensures r.Ok? <==> Acceptable(source, derived) && Meant(source) != Meant(derived)
    ensures r.Err? && r.error.Refused? <==> !Acceptable(source, derived)
    ensures r.Ok? ==> r.value != [] && exists edits :: Explains(source, derived, edits, r.value)
    ensures r.Ok? ==> forall i :: 0 <= i < |r.value| ==> Names(source, r.value[i]) && Deep(r.value[i])
    ensures r.Ok? ==> forall i, j :: 0 <= i < j < |r.value| ==> PointersApart(r.value[i], r.value[j])
  {
    hide Diff, PyEq, Acceptable, Deep, SaysAll, Meant, Names, PointersApart, WellFormed, Replay, Encode;
    assert Encode([]) == "" by { EncodeNothing(); }
    AcceptedIff(source, derived, []);
    EmptyIffEqual(source, derived, []);
    EqualIffSameMeaning(source, derived);
    var changes := SemanticChanges(source, derived, "", []);
    if changes.Err? {
      return Err(Refused(changes.error));
    }
    if changes.value == [] {
      return Err(Unchanged);
    }
    ghost var edits := Diff(source, derived, []).value;
    PatchIsCorrect(source, derived);
    PointersNameDisjointValues(source, derived);
    RecordSays(edits);
    RecordDeep(source, derived);
    assert Explains(source, derived, edits, changes.value);
    return Ok(changes.value);
  }

  lemma EncodeNothing()
    ensures Encode([]) == ""
  {
  }
}
