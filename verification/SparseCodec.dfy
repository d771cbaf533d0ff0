/** The sparse project codec: nodes are saved as deltas against declared defaults and expanded back onto them.

  A `Schema` stands for what node factories materialise: the default record of a node type and role, with its
  declared children below it. Uuids inside it are placeholders for freshly generated ones.
 */
module SparseCodec {
  import opened UiTypes
  import opened SparseDeltas

  datatype Role = Declared | ItemRoot | Detached

  datatype Record = Record(
    uuid: string,
    nodeType: string,
    role: Role,
    meta: Meta,
    data: Option<Json>,
    children: seq<Record>)

  type Schema = (string, Role) -> Record

  /** What one save works with: the declared defaults, the uuids that some node refers to, and which nodes it leaves
      to another file. */
  datatype Saver = Saver(schema: Schema, referenced: set<string>, omits: Meta -> bool)

  // ---------------------------------------------------------------------
  // Identity of declared children
  // ---------------------------------------------------------------------

  /** `child` is saved for the declared slot of `baseline`. A record without a declared id matches nothing. */
  predicate SameSlot(child: Record, baseline: Record) {
    && DeclId in child.meta
    && DeclId in baseline.meta
    && child.meta[DeclId] == baseline.meta[DeclId]
    && child.nodeType == baseline.nodeType
    && child.role == baseline.role
  }

  /** What a declared child is known by, if it has a declared id. */
  function Identity(r: Record): Option<(string, string, Role)> {
    if DeclId in r.meta then Some((r.meta[DeclId], r.nodeType, r.role)) else None
  }

  lemma {:induction false} SlotsAreKnownByIdentity(a: Record, b: Record)
    ensures SameSlot(a, b) <==> Identity(a).Some? && Identity(a) == Identity(b)
  {
  }

  function SlotCount(baselines: seq<Record>, baseline: Record): nat {
    if baselines == [] then 0
    else (if SameSlot(baselines[0], baseline) then 1 else 0) + SlotCount(baselines[1..], baseline)
  }

  /** The first declared child whose slot `child` takes. */
  function FindSlot(child: Record, baselines: seq<Record>): (r: Option<Record>)
    ensures r.Some? ==> r.value in baselines && SameSlot(child, r.value)
    ensures r.None? ==> forall b | b in baselines :: !SameSlot(child, b)
  {
    if baselines == [] then None
    else if SameSlot(child, baselines[0]) then Some(baselines[0])
    else FindSlot(child, baselines[1..])
  }

  // ---------------------------------------------------------------------
  // Encoding
  // ---------------------------------------------------------------------

  /** Nothing about the node itself differs from its declared default. */
  predicate DefaultBacked(node: Record, matched: Option<Record>) {
    && matched.Some?
    && DeltaMeta(node.meta, matched.value.meta) == map[]
    && Persisted(Diff(Read(node.data), matched.value.data)).None?
  }

  /** The declared children a node's own children are matched against. */
  function SlotsOf(schema: Schema, node: Record, matched: Option<Record>): seq<Record> {
    if DefaultBacked(node, matched) then matched.value.children else schema(node.nodeType, node.role).children
  }

  function SavedMeta(schema: Schema, node: Record, matched: Option<Record>, allowOmission: bool): Meta {
    if matched.Some? && allowOmission then
      var delta := DeltaMeta(node.meta, matched.value.meta);
      if DeclId in node.meta then delta[DeclId := node.meta[DeclId]] else delta
    else if matched.Some? then FullMeta(node.meta)
    else DeltaMeta(node.meta, schema(node.nodeType, node.role).meta)
  }

  function SavedData(schema: Schema, node: Record, matched: Option<Record>, allowOmission: bool): Option<Json> {
    if matched.Some? && allowOmission then Persisted(Diff(Read(node.data), matched.value.data))
    else if matched.Some? then Persisted(Read(node.data))
    else Persisted(Diff(Read(node.data), schema(node.nodeType, node.role).data))
  }

  /** Only a child that takes an unrepeated declared slot may be left out. */
  predicate MayOmit(child: Record, slots: seq<Record>) {
    var slot := FindSlot(child, slots);
    slot.Some? && SlotCount(slots, slot.value) <= 1
  }

  const PREFERENCES_DECL_ID := "preferences"

  /** The nodes that live in the app's own data: the preferences, and whatever carries the app-data tag. */
  function AppData(tagged: string -> bool): Meta -> bool {
    (meta: Meta) => (DeclId in meta && meta[DeclId] == PREFERENCES_DECL_ID) || (Tags in meta && tagged(meta[Tags]))
  }

  /** A project file leaves app data out. */
  function ProjectSaver(schema: Schema, referenced: set<string>, tagged: string -> bool): Saver {
    Saver(schema, referenced, AppData(tagged))
  }

  /** A subtree file leaves nothing to another file. */
  function SubtreeSaver(schema: Schema, referenced: set<string>): Saver {
    Saver(schema, referenced, _ => false)
  }

  /** The saved form of a node, or nothing: when it belongs to another file, or when its declared default says it all
      and nobody refers to it. */
  function Encode(s: Saver, node: Record, matched: Option<Record>, allowOmission: bool): Option<Record>
    decreases node, 0
  {
    if s.omits(node.meta) then None else
    var children := EncodeAll(s, node.children, SlotsOf(s.schema, node, matched));
    if allowOmission && DefaultBacked(node, matched) && children == [] && node.uuid !in s.referenced then None
    else Some(Record(node.uuid, node.nodeType, node.role,
                     SavedMeta(s.schema, node, matched, allowOmission),
                     SavedData(s.schema, node, matched, allowOmission), children))
  }

  /** A child as it is saved among its siblings. */
  function EncodeChild(s: Saver, child: Record, slots: seq<Record>): Option<Record>
    decreases child, 1
  {
    Encode(s, child, FindSlot(child, slots), MayOmit(child, slots))
  }

  function EncodeAll(s: Saver, nodes: seq<Record>, slots: seq<Record>): seq<Record>
    decreases nodes, 0
  {
    if nodes == [] then [] else
    (match EncodeChild(s, nodes[0], slots) case Some(r) => [r] case None => []) + EncodeAll(s, nodes[1..], slots)
  }

  // ---------------------------------------------------------------------
  // Assigning saved children to declared slots
  // ---------------------------------------------------------------------

  predicate HasPayload(r: Record) {
    r.data.Some? || r.children != [] || exists f :: f in r.meta && !f.DeclId?
  }

  predicate AnyMatch(overlays: seq<Record>, slot: Record, withPayload: bool) {
    exists i :: 0 <= i < |overlays| && SameSlot(overlays[i], slot) && (withPayload ==> HasPayload(overlays[i]))
  }

  predicate Chosen(overlay: Record, slot: Record, withPayload: bool) {
    SameSlot(overlay, slot) && (withPayload ==> HasPayload(overlay))
  }

  function FirstChosen(overlays: seq<Record>, slot: Record, withPayload: bool): (i: nat)
    requires AnyMatch(overlays, slot, withPayload)
    ensures i < |overlays| && Chosen(overlays[i], slot, withPayload)
    ensures forall j | 0 <= j < i :: !Chosen(overlays[j], slot, withPayload)
  {
    if Chosen(overlays[0], slot, withPayload) then 0 else
    assert AnyMatch(overlays[1..], slot, withPayload) by {
      var i :| 0 <= i < |overlays| && SameSlot(overlays[i], slot) && (withPayload ==> HasPayload(overlays[i]));
      assert overlays[1..][i - 1] == overlays[i];
    }
    1 + FirstChosen(overlays[1..], slot, withPayload)
  }

  /** The saved child that fills a slot: the first one with a payload, otherwise the first one. */
  function Pick(overlays: seq<Record>, slot: Record): (r: Option<nat>)
    ensures r.Some? ==> r.value < |overlays| && SameSlot(overlays[r.value], slot)
    ensures r.None? ==> forall o | o in overlays :: !SameSlot(o, slot)
  {
    if AnyMatch(overlays, slot, true) then Some(FirstChosen(overlays, slot, true))
    else if AnyMatch(overlays, slot, false) then Some(FirstChosen(overlays, slot, false))
    else None
  }

  function WithoutSlot(overlays: seq<Record>, slot: Record): (r: seq<Record>)
    ensures forall o | o in r :: o in overlays && !SameSlot(o, slot)
  {
    if overlays == [] then []
    else (if SameSlot(overlays[0], slot) then [] else [overlays[0]]) + WithoutSlot(overlays[1..], slot)
  }

  /** What is left after a slot is filled: an unrepeated slot uses up every saved child that claims it. */
  function Unused(overlays: seq<Record>, slots: seq<Record>, slot: Record): (r: seq<Record>)
    ensures forall o | o in r :: o in overlays
  {
    match Pick(overlays, slot)
    case None => overlays
    case Some(i) => if SlotCount(slots, slot) > 1 then overlays[..i] + overlays[i + 1..]
                    else WithoutSlot(overlays, slot)
  }

  datatype Assignment = Assignment(picks: seq<Option<Record>>, leftover: seq<Record>)

  /** Fills `todo`, a suffix of the declared `slots`, in order. */
  function Assign(overlays: seq<Record>, slots: seq<Record>, todo: seq<Record>): (a: Assignment)
    ensures |a.picks| == |todo|
    ensures forall i | 0 <= i < |todo| && a.picks[i].Some? ::
              a.picks[i].value in overlays && SameSlot(a.picks[i].value, todo[i])
    ensures forall o | o in a.leftover :: o in overlays
    decreases |todo|
  {
    if todo == [] then Assignment([], overlays) else
    var rest := Assign(Unused(overlays, slots, todo[0]), slots, todo[1..]);
    var pick := match Pick(overlays, todo[0]) case Some(i) => Some(overlays[i]) case None => None;
    Assignment([pick] + rest.picks, rest.leftover)
  }

  // ---------------------------------------------------------------------
  // Expansion
  // ---------------------------------------------------------------------

  function MergeRecord(baseline: Record, overlay: Record): Record {
    Record(overlay.uuid, overlay.nodeType, overlay.role, MergeMeta(baseline.meta, overlay.meta),
           MergeData(baseline.data, overlay.data), overlay.children)
  }

  /** The default record of the saved node's type, decoded from what was saved. */
  function StructuralBaseline(schema: Schema, overlay: Record): Record {
    var default := schema(overlay.nodeType, overlay.role);
    MergeRecord(default, overlay).(children := default.children)
  }

  function ExpansionBaseline(schema: Schema, overlay: Record, matched: Option<Record>): Record {
    match matched case Some(b) => b case None => StructuralBaseline(schema, overlay)
  }

  function Expand(schema: Schema, overlay: Record, matched: Option<Record>): Record
    decreases overlay, 1
  {
    var baseline := ExpansionBaseline(schema, overlay, matched);
    var filled := Assign(overlay.children, baseline.children, baseline.children);
    MergeRecord(baseline, overlay).(children :=
      FillSlots(schema, overlay, filled.picks, baseline.children) + ExpandExtras(schema, overlay, filled.leftover))
  }

  function FillSlots(schema: Schema, parent: Record, picks: seq<Option<Record>>, slots: seq<Record>): (r: seq<Record>)
    requires |picks| == |slots|
    requires forall p | p in picks && p.Some? :: p.value in parent.children
    ensures |r| == |slots|
    decreases parent, 0, |picks|
  {
    if picks == [] then [] else
    assert picks[0] in picks;
    var first := match picks[0] case Some(o) => Expand(schema, o, Some(slots[0])) case None => slots[0];
    [first] + FillSlots(schema, parent, picks[1..], slots[1..])
  }

  function ExpandExtras(schema: Schema, parent: Record, extras: seq<Record>): (r: seq<Record>)
    requires forall o | o in extras :: o in parent.children
    ensures |r| == |extras|
    decreases parent, 0, |extras|
  {
    if extras == [] then [] else
    assert extras[0] in extras;
    [Expand(schema, extras[0], None)] + ExpandExtras(schema, parent, extras[1..])
  }
}
