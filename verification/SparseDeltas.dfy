/** Deltas of node data and node metadata against a baseline, and when merging them back restores the current value. */
module SparseDeltas {
  import opened UiTypes

  datatype Json =
    | Null
    | Boolean(b: bool)
    | Number(n: real)
    | Text(s: string)
    | Array(items: seq<Json>)
    | Object(fields: map<string, Json>)

  // ---------------------------------------------------------------------
  // Data
  // ---------------------------------------------------------------------

  /** The fields of `current` that `baseline` lacks or holds differently. */
  function DifferingFields(current: map<string, Json>, baseline: map<string, Json>): map<string, Json> {
    map key | key in current && !(key in baseline && baseline[key] == current[key]) :: current[key]
  }

  function Diff(current: Json, baseline: Option<Json>): Json {
    if baseline.None? then current
    else if current == baseline.value then Null
    else if current.Object? && baseline.value.Object? && baseline.value.fields.Keys <= current.fields.Keys then
      var differing := DifferingFields(current.fields, baseline.value.fields);
      if differing == map[] then Null else Object(differing)
    else current
  }

  function MergeJson(baseline: Json, overlay: Json): Json {
    if baseline.Object? && overlay.Object? then Object(baseline.fields + overlay.fields) else overlay
  }

  function MergeData(baseline: Option<Json>, overlay: Option<Json>): Option<Json> {
    match (baseline, overlay)
    case (Some(b), Some(o)) => Some(MergeJson(b, o))
    case (Some(b), None) => Some(b)
    case (None, Some(o)) => Some(o)
    case (None, None) => None
  }

  /** A null payload is not persisted, and an absent one reads as null. */
  function Persisted(data: Json): Option<Json> {
    if data.Null? then None else Some(data)
  }

  function Read(data: Option<Json>): Json {
    match data case Some(d) => d case None => Null
  }

  /** A delta can express a changed or an added field, but neither a deleted one nor a payload that became null. */
  predicate DeltaCanExpress(current: Json, baseline: Option<Json>) {
    || baseline.None?
    || current == baseline.value
    || (!current.Null?
        && (current.Object? && baseline.value.Object? ==> baseline.value.fields.Keys <= current.fields.Keys))
  }

  /** Merging the persisted delta back onto the baseline restores the
      current data exactly when the delta can express it. */
  lemma {:induction false} DataDeltaRoundTrip(current: Json, baseline: Option<Json>)
    ensures Read(MergeData(baseline, Persisted(Diff(current, baseline)))) == current
            <==> DeltaCanExpress(current, baseline)
  {
    if baseline.Some? && current != baseline.value && current.Object? && baseline.value.Object? {
      var c, b := current.fields, baseline.value.fields;
      if b.Keys <= c.Keys {
        var differing := DifferingFields(c, b);
        assert b + differing == c;
      } else {
        var key :| key in b && key !in c;
        assert key in b + c;
        assert (b + c) != c;
      }
    }
  }

  /** The delta of an object that keeps all baseline keys is null, or the object of exactly the differing fields. */
  lemma {:induction false} ObjectDeltaIsMinimal(current: map<string, Json>, baseline: map<string, Json>, key: string)
    requires baseline.Keys <= current.Keys
    ensures var diff := Diff(Object(current), Some(Object(baseline)));
            && (diff.Null? || diff.Object?)
            && ((diff.Object? && key in diff.fields) <==>
                (key in current && (key !in baseline || baseline[key] != current[key])))
            && (diff.Object? && key in diff.fields ==> diff.fields[key] == current[key])
  {
    if DifferingFields(current, baseline) == map[] {
      forall k | k in current
        ensures k in baseline && baseline[k] == current[k]
      {
        assert k !in DifferingFields(current, baseline);
      }
    }
  }

  type Fields = map<string, Json>

  predicate Differs(key: string, c: Fields, b: Fields)
    requires key in c
  {
    !(key in b && b[key] == c[key])
  }

  method CollectDifferingFields(c: Fields, b: Fields) returns (differing: Fields)
    ensures differing == DifferingFields(c, b)
  {
    differing := map[];
    var todo := c.Keys;
    while todo != {}
      invariant todo <= c.Keys
      invariant forall key | key in differing ::
                  key in c && key !in todo && Differs(key, c, b) && differing[key] == c[key]
      invariant forall key | key in c && key !in todo && Differs(key, c, b) :: key in differing
      decreases |todo|
    {
      var key :| key in todo;
      todo := todo - {key};
      if Differs(key, c, b) {
        differing := differing[key := c[key]];
      }
    }
  }

  method MissesSomeKey(b: Fields, c: Fields) returns (misses: bool)
    ensures misses <==> !(b.Keys <= c.Keys)
  {
    var todo := b.Keys;
    while todo != {}
      invariant todo <= b.Keys && b.Keys - todo <= c.Keys
      decreases |todo|
    {
      var key :| key in todo;
      todo := todo - {key};
      if key !in c {
        return true;
      }
    }
    return false;
  }

  /** Computes the delta key by key. */
  method DiffProjectData(current: Json, baseline: Option<Json>) returns (diff: Json)
    ensures diff == Diff(current, baseline)
  {
    if baseline.None? {
      return current;
    }
    if current == baseline.value {
      return Null;
    }
    if !(current.Object? && baseline.value.Object?) {
      return current;
    }
    var misses := MissesSomeKey(baseline.value.fields, current.fields);
    if misses {
      return current;
    }
    var differing := CollectDifferingFields(current.fields, baseline.value.fields);
    diff := if differing == map[] then Null else Object(differing);
  }

  method InsertAll(baseline: Fields, overlay: Fields) returns (fields: Fields)
    ensures fields == baseline + overlay
  {
    fields := baseline;
    var todo := overlay.Keys;
    while todo != {}
      invariant todo <= overlay.Keys
      invariant fields.Keys == baseline.Keys + (overlay.Keys - todo)
      invariant forall key | key in overlay && key !in todo :: fields[key] == overlay[key]
      invariant forall key | key in baseline && (key !in overlay || key in todo) :: fields[key] == baseline[key]
      decreases |todo|
    {
      var key :| key in todo;
      todo := todo - {key};
      fields := fields[key := overlay[key]];
    }
  }

  /** Inserts every overlay field into the baseline object; anything but two objects is replaced. */
  method MergeSparseJson(baseline: Json, overlay: Json) returns (merged: Json)
    ensures merged == MergeJson(baseline, overlay)
  {
    if !(baseline.Object? && overlay.Object?) {
      return overlay;
    }
    var fields := InsertAll(baseline.fields, overlay.fields);
    merged := Object(fields);
  }

  // ---------------------------------------------------------------------
  // Metadata
  // ---------------------------------------------------------------------

  datatype MetaField =
    | DeclId
    | ShortName
    | Enabled
    | CanBeDisabled
    | DisplayLabel
    | Description
    | DeclaredDescriptionKey
    | DeclaredDescription
    | Tags
    | UserPermissions
    | Semantics
    | Presentation

  /** Persisted metadata: the fields that are present, with their values. */
  type Meta = map<MetaField, string>

  function DeltaMeta(current: Meta, baseline: Meta): Meta {
    map f | f in current && !(f in baseline && baseline[f] == current[f]) :: current[f]
  }

  function MergeMeta(baseline: Meta, overlay: Meta): Meta {
    baseline + overlay
  }

  /** A metadata delta restores the current metadata exactly when no field of the baseline has been cleared. */
  lemma {:induction false} MetaDeltaRoundTrip(current: Meta, baseline: Meta)
    ensures MergeMeta(baseline, DeltaMeta(current, baseline)) == current <==> baseline.Keys <= current.Keys
  {
  }

  /** The empty delta means there is nothing to restore. */
  lemma {:induction false} EmptyMetaDelta(current: Meta, baseline: Meta)
    requires baseline.Keys <= current.Keys
    ensures DeltaMeta(current, baseline) == map[] <==> current == baseline
  {
    if DeltaMeta(current, baseline) == map[] {
      forall f | f in current
        ensures f in baseline && baseline[f] == current[f]
      {
        assert f !in DeltaMeta(current, baseline);
      }
    }
  }

  predicate DefaultIsOmitted(f: MetaField) {
    f.Tags? || f.UserPermissions? || f.Semantics? || f.Presentation?
  }

  predicate NeverInFullMeta(f: MetaField) {
    f.Description? || f.DeclaredDescriptionKey? || f.DeclaredDescription?
  }

  const DEFAULT_VALUE := ""

  /** What a record without a delta keeps of its metadata: no descriptions, and no defaulted optional fields. */
  function FullMeta(current: Meta): Meta {
    map f | f in current && !NeverInFullMeta(f) && !(DefaultIsOmitted(f) && current[f] == DEFAULT_VALUE) :: current[f]
  }

  /** Every field of the baseline is still present, and a field the full form leaves out has the baseline's value. */
  predicate FullMetaCanExpress(current: Meta, baseline: Meta) {
    && baseline.Keys <= current.Keys
    && forall f | f in current :: f in FullMeta(current) || (f in baseline && baseline[f] == current[f])
  }

  lemma {:induction false} FullMetaRoundTrip(current: Meta, baseline: Meta)
    ensures MergeMeta(baseline, FullMeta(current)) == current <==> FullMetaCanExpress(current, baseline)
  {
  }
}
