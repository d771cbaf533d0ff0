/** Parameters save a delta of their own: field by field, against what
    the default decodes to, and some fields not at all. */
module ParameterDeltas {
  import opened UiTypes
  import opened SparseDeltas

  datatype Field =
    | Value
    | DefaultValue
    | ChangeCheck
    | EventBehaviour
    | ReadOnly
    | PersistReadOnlyValue
    | Constraints
    | UiHints
    | Control
    | ControlModesEnabled

  const FIELDS: set<Field> := {Value, DefaultValue, ChangeCheck, EventBehaviour, ReadOnly, PersistReadOnlyValue,
                               Constraints, UiHints, Control, ControlModesEnabled}

  /** A parameter's settings, every field with a value. */
  type Settings = Field -> Json

  /** Persisted settings: the fields that are present. */
  type Payload = map<Field, Json>

  /** Fields that are present replace those of `base`. */
  function Decode(base: Settings, payload: Payload): Settings {
    (f: Field) => if f in payload then payload[f] else base(f)
  }

  /** A read-only value is saved over a default only if the parameter
      asks for it, and constraints only if users may edit them. */
  predicate Persists(current: Settings, overDefault: bool, canEditConstraints: bool, f: Field) {
    match f
    case Value => !overDefault || current(ReadOnly) != Boolean(true) || current(PersistReadOnlyValue) == Boolean(true)
    case Constraints => !overDefault || canEditConstraints
    case _ => true
  }

  /** The payload of a parameter against its default of the same node type,
      if it has one, and otherwise against what the type starts with. */
  function EncodeAgainst(current: Settings, typeDefault: Settings, default: Option<Payload>,
                         canEditConstraints: bool): Payload {
    var base := Decode(typeDefault, match default case Some(d) => d case None => map[]);
    map f | f in FIELDS && Persists(current, default.Some?, canEditConstraints, f) && current(f) != base(f) ::
      current(f)
  }

  /** Decoding the saved payload, merged over the default's, gives back a
      field exactly when the field is saved or equals the default's. */
  lemma {:induction false} ParameterDeltaRoundTrip(current: Settings, typeDefault: Settings, default: Option<Payload>,
                                                   canEditConstraints: bool, f: Field)
    ensures var d := match default case Some(d) => d case None => map[];
            var saved := EncodeAgainst(current, typeDefault, default, canEditConstraints);
            Decode(typeDefault, d + saved)(f) == current(f)
            <==> Persists(current, default.Some?, canEditConstraints, f) || current(f) == Decode(typeDefault, d)(f)
  {
    assert f in FIELDS;
  }

  /** Only what differs from the default is saved, and all of that if there is no default of the node's type. */
  lemma {:induction false} ParameterDeltaIsMinimal(current: Settings, typeDefault: Settings, default: Option<Payload>,
                                                   canEditConstraints: bool, f: Field)
    ensures var saved := EncodeAgainst(current, typeDefault, default, canEditConstraints);
            && (default.None? ==> (f in saved <==> current(f) != typeDefault(f)))
            && (default.Some? && f in saved ==> current(f) != Decode(typeDefault, default.value)(f))
            && (f in saved ==> saved[f] == current(f))
  {
    assert f in FIELDS;
  }

  /** A parameter saved over a default comes back whole exactly when what is not saved is as in the default:
      the value if it is read-only and not to be persisted, the constraints if users may not edit them. */
  lemma {:induction false} ParameterComesBackWhole(current: Settings, typeDefault: Settings, default: Payload,
                                                   canEditConstraints: bool)
    ensures var saved := EncodeAgainst(current, typeDefault, Some(default), canEditConstraints);
            var base := Decode(typeDefault, default);
            (forall f :: Decode(typeDefault, default + saved)(f) == current(f))
            <==>
            && (current(ReadOnly) == Boolean(true) && current(PersistReadOnlyValue) != Boolean(true) ==>
                  current(Value) == base(Value))
            && (!canEditConstraints ==> current(Constraints) == base(Constraints))
  {
    forall f
      ensures Decode(typeDefault, default + EncodeAgainst(current, typeDefault, Some(default), canEditConstraints))(f)
              == current(f)
              <==> Persists(current, true, canEditConstraints, f) || current(f) == Decode(typeDefault, default)(f)
    {
      ParameterDeltaRoundTrip(current, typeDefault, Some(default), canEditConstraints, f);
    }
  }
}
