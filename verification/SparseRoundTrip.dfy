/** Saving and loading a project: what comes back of every tree, and exactly when all of it does. */
module SparseRoundTrip {
  import opened UiTypes
  import opened SparseDeltas
  import opened SparseCodec
  import opened SparseArrangement

  // ---------------------------------------------------------------------
  // Trees and defaults
  // ---------------------------------------------------------------------

  /** Live nodes have a declared id and a short name, and no payload rather than a null one. */
  ghost predicate Proper(node: Record)
    decreases node
  {
    && DeclId in node.meta
    && ShortName in node.meta
    && node.data != Some(Null)
    && forall i | 0 <= i < |node.children| :: Proper(node.children[i])
  }

  ghost predicate ProperSchema(schema: Schema) {
    && SchemaIsConsistent(schema)
    && DeclaresIds(schema)
    && (forall t, r :: schema(t, r).data != Some(Null))
    && (forall t, r, i | 0 <= i < |schema(t, r).children| :: schema(t, r).children[i].data != Some(Null))
  }

  /** `b` is a default of the node's own type and role, with the declared children of that type and role. */
  ghost predicate IsDefaultFor(schema: Schema, node: Record, b: Option<Record>) {
    b.Some? ==>
      && b.value.nodeType == node.nodeType
      && b.value.role == node.role
      && b.value.children == schema(node.nodeType, node.role).children
  }

  /** What a node is saved against and expanded onto: a node that may
      be left out is expanded onto what it is saved against. */
  ghost predicate Fits(schema: Schema, node: Record, saved: Option<Record>, allow: bool, filled: Option<Record>) {
    && (allow ==> saved.Some? && filled == saved)
    && (saved.Some? || filled.None?)
    && IsDefaultFor(schema, node, saved)
    && IsDefaultFor(schema, node, filled)
    && (filled.Some? ==> filled.value.data != Some(Null))
  }

  /** No two children claim the same unrepeated slot. */
  ghost predicate Unrivalled(nodes: seq<Record>, slots: seq<Record>) {
    forall i, j | 0 <= i < j < |nodes| && MayOmit(nodes[i], slots) :: !SameSlot(nodes[i], nodes[j])
  }

  /** ... anywhere in the tree. */
  ghost predicate NoRivals(schema: Schema, node: Record)
    decreases node
  {
    && Unrivalled(node.children, SlotsIn(schema, node))
    && forall i | 0 <= i < |node.children| :: NoRivals(schema, node.children[i])
  }

  /** Raw data merged over a default leaves nothing of the default behind. */
  predicate RawCanExpress(current: Option<Json>, baseline: Option<Json>) {
    && (baseline.Some? ==> current.Some?)
    && (baseline.Some? && baseline.value.Object? && current.value.Object? ==>
          baseline.value.fields.Keys <= current.value.fields.Keys)
  }

  /** The default that a node's saved fields are merged onto. */
  function BaseOf(schema: Schema, node: Record, filled: Option<Record>): Record {
    match filled case Some(b) => b case None => schema(node.nodeType, node.role)
  }

  /** The saved form of the node can express its metadata. */
  predicate MetaExpressible(schema: Schema, node: Record, saved: Option<Record>, allow: bool, filled: Option<Record>) {
    var base := BaseOf(schema, node, filled);
    if saved.Some? && !allow then FullMetaCanExpress(node.meta, base.meta) else base.meta.Keys <= node.meta.Keys
  }

  /** The saved form of the node can express its data. */
  predicate DataExpressible(schema: Schema, node: Record, saved: Option<Record>, allow: bool, filled: Option<Record>) {
    var base := BaseOf(schema, node, filled);
    if saved.Some? && !allow then RawCanExpress(node.data, base.data) else DeltaCanExpress(Read(node.data), base.data)
  }

  /** What is asked to come back: only the place of every node, also its data, or also its metadata. */
  datatype Part = Places | PlacesAndData | Everything

  /** The saved form of every node of the tree can express this part of it, each where it is laid out. */
  ghost predicate Expressible(schema: Schema, node: Record, saved: Option<Record>, allow: bool, filled: Option<Record>,
                              part: Part)
    decreases node
  {
    && (part.Everything? ==> MetaExpressible(schema, node, saved, allow, filled))
    && (!part.Places? ==> DataExpressible(schema, node, saved, allow, filled))
    && var slots := SlotsIn(schema, node);
       forall spot | spot in Layout(node.children, slots) && spot.Taken? ::
         Expressible(schema, spot.child, FindSlot(spot.child, slots), MayOmit(spot.child, slots), spot.slot, part)
  }

  // ---------------------------------------------------------------------
  // Slots
  // ---------------------------------------------------------------------

  lemma {:induction false} SlotCountByIdentity(slots: seq<Record>, a: Record, b: Record)
    requires SameSlot(a, b)
    ensures SlotCount(slots, a) == SlotCount(slots, b)
    decreases |slots|
  {
    if slots != [] {
      SlotCountByIdentity(slots[1..], a, b);
    }
  }

  lemma {:induction false} SlotCountsAMatch(nodes: seq<Record>, b: Record, i: nat)
    requires i < |nodes| && SameSlot(nodes[i], b)
    ensures SlotCount(nodes, b) >= 1
    decreases |nodes|
  {
    if i > 0 {
      SlotCountsAMatch(nodes[1..], b, i - 1);
    }
  }

  lemma {:induction false} SlotCountsTwo(nodes: seq<Record>, b: Record, i: nat, j: nat)
    requires i < j < |nodes| && SameSlot(nodes[i], b) && SameSlot(nodes[j], b)
    ensures SlotCount(nodes, b) >= 2
    decreases |nodes|
  {
    if i == 0 {
      SlotCountsAMatch(nodes[1..], b, j - 1);
    } else {
      SlotCountsTwo(nodes[1..], b, i - 1, j - 1);
    }
  }

  lemma {:induction false} SlotCountConcat(x: seq<Record>, y: seq<Record>, b: Record)
    ensures SlotCount(x + y, b) == SlotCount(x, b) + SlotCount(y, b)
    decreases |x|
  {
    if x == [] {
      assert x + y == y;
    } else {
      assert (x + y)[1..] == x[1..] + y;
      SlotCountConcat(x[1..], y, b);
    }
  }

  lemma {:induction false} NobodyCounts(nodes: seq<Record>, b: Record)
    requires forall n | n in nodes :: !SameSlot(n, b)
    ensures SlotCount(nodes, b) == 0
    decreases |nodes|
  {
    if nodes != [] {
      NobodyCounts(nodes[1..], b);
    }
  }

  lemma {:induction false} StillUnrivalled(nodes: seq<Record>, i: nat, slots: seq<Record>)
    requires Unrivalled(nodes, slots) && i < |nodes|
    ensures Unrivalled(Without(nodes, i), slots)
  {
    hide SameSlot, MayOmit;
    var left := Without(nodes, i);
    forall j, k | 0 <= j < k < |left| && MayOmit(left[j], slots)
      ensures !SameSlot(left[j], left[k])
    {
      assert left[j] == nodes[if j < i then j else j + 1];
      assert left[k] == nodes[if k < i then k else k + 1];
    }
  }

  lemma {:induction false} FindsFirst(child: Record, slots: seq<Record>, k: nat)
    requires k < |slots| && SameSlot(child, slots[k]) && forall q | 0 <= q < k :: !SameSlot(child, slots[q])
    ensures FindSlot(child, slots) == Some(slots[k])
    decreases k
  {
    if k > 0 {
      assert !SameSlot(child, slots[0]);
      FindsFirst(child, slots[1..], k - 1);
    }
  }

  /** The children that claim an unrepeated slot claim one from position `k` on. */
  ghost predicate ClaimsFrom(nodes: seq<Record>, slots: seq<Record>, k: nat) {
    forall n, q | n in nodes && MayOmit(n, slots) && 0 <= q < k && q < |slots| :: !SameSlot(n, slots[q])
  }

  /** A child that claims an unrepeated slot is laid out in it. */
  lemma {:induction false} UnrepeatedIsPlaced(nodes: seq<Record>, slots: seq<Record>, k: nat, spot: Spot)
    requires k <= |slots| && Unrivalled(nodes, slots) && ClaimsFrom(nodes, slots, k)
    requires spot in Layout(nodes, slots[k..]) && spot.Taken? && MayOmit(spot.child, slots)
    ensures spot.slot == FindSlot(spot.child, slots)
    decreases |slots| - k
  {
    var todo := slots[k..];
    if k == |slots| {
      NotAnOther(nodes, slots, spot);
    } else {
      var b := slots[k];
      assert todo[0] == b && todo[1..] == slots[k + 1..];
      match Claimant(nodes, b)
      case None =>
        UnrepeatedIsPlaced(nodes, slots, k + 1, spot);
      case Some(i) =>
        var left := Without(nodes, i);
        StillUnrivalled(nodes, i, slots);
        ClaimantTakes(nodes, slots, k, i);
        if spot == Taken(nodes[i], Some(b)) {
          FindsFirst(nodes[i], slots, k);
        } else {
          UnrepeatedIsPlaced(left, slots, k + 1, spot);
        }
    }
  }

  lemma {:induction false} NotAnOther(nodes: seq<Record>, slots: seq<Record>, spot: Spot)
    requires ClaimsFrom(nodes, slots, |slots|) && spot in Others(nodes) && spot.Taken?
    ensures !MayOmit(spot.child, slots)
  {
    var i :| 0 <= i < |nodes| && spot == Taken(nodes[i], None);
    assert nodes[i] in nodes;
  }

  lemma {:induction false} ClaimantTakes(nodes: seq<Record>, slots: seq<Record>, k: nat, i: nat)
    requires k < |slots| && Unrivalled(nodes, slots) && ClaimsFrom(nodes, slots, k)
    requires Claimant(nodes, slots[k]) == Some(i)
    ensures ClaimsFrom(Without(nodes, i), slots, k + 1)
  {
    var left, b := Without(nodes, i), slots[k];
    forall n | n in left && MayOmit(n, slots)
      ensures !SameSlot(n, b)
    {
      var j :| 0 <= j < |left| && left[j] == n;
      var m := if j < i then j else j + 1;
      assert nodes[m] == n;
      assert m > i && MayOmit(nodes[i], slots) ==> !SameSlot(nodes[i], nodes[m]);
      if SameSlot(n, b) {
        SameMayOmit(n, nodes[i], slots, b);
      }
    }
  }

  lemma {:induction false} SameMayOmit(a: Record, b: Record, slots: seq<Record>, slot: Record)
    requires SameSlot(a, slot) && SameSlot(b, slot)
    ensures MayOmit(a, slots) == MayOmit(b, slots)
    decreases |slots|
  {
    if slots != [] {
      SameFind(a, b, slots, slot);
    }
  }

  lemma {:induction false} SameFind(a: Record, b: Record, slots: seq<Record>, slot: Record)
    requires SameSlot(a, slot) && SameSlot(b, slot)
    ensures FindSlot(a, slots) == FindSlot(b, slots)
    decreases |slots|
  {
    if slots != [] {
      SameFind(a, b, slots[1..], slot);
    }
  }

  /** Every child fits where it is laid out. */
  lemma {:induction false} SpotFits(schema: Schema, parent: Record, spot: Spot)
    requires ProperSchema(schema) && Unrivalled(parent.children, SlotsIn(schema, parent))
    requires spot in Layout(parent.children, SlotsIn(schema, parent)) && spot.Taken?
    ensures var slots := SlotsIn(schema, parent);
            Fits(schema, spot.child, FindSlot(spot.child, slots), MayOmit(spot.child, slots), spot.slot)
  {
    var slots := SlotsIn(schema, parent);
    LaidOutSlots(parent.children, slots, spot);
    assert slots[0..] == slots;
    if MayOmit(spot.child, slots) {
      UnrepeatedIsPlaced(parent.children, slots, 0, spot);
    }
  }

  // ---------------------------------------------------------------------
  // One node's own fields
  // ---------------------------------------------------------------------

  lemma {:induction false} MergeMetaTwice(baseline: Meta, overlay: Meta)
    ensures MergeMeta(MergeMeta(baseline, overlay), overlay) == MergeMeta(baseline, overlay)
  {
  }

  lemma {:induction false} MergeDataTwice(baseline: Option<Json>, overlay: Option<Json>)
    ensures MergeData(MergeData(baseline, overlay), overlay) == MergeData(baseline, overlay)
  {
    if overlay.Some? && overlay.value.Object? {
      var o := overlay.value.fields;
      assert o + o == o;
      if baseline.Some? && baseline.value.Object? {
        var b := baseline.value.fields;
        assert (b + o) + o == b + o;
      }
    }
  }

  lemma {:induction false} DataRestored(current: Option<Json>, baseline: Option<Json>)
    requires current != Some(Null) && baseline != Some(Null)
    ensures MergeData(baseline, Persisted(Diff(Read(current), baseline))) == current
            <==> DeltaCanExpress(Read(current), baseline)
  {
    DataDeltaRoundTrip(Read(current), baseline);
  }

  lemma {:induction false} RawDataRestored(current: Option<Json>, baseline: Option<Json>)
    requires current != Some(Null)
    ensures MergeData(baseline, Persisted(Read(current))) == current <==> RawCanExpress(current, baseline)
  {
    if baseline.Some? && current.Some? && baseline.value.Object? && current.value.Object? {
      var b, c := baseline.value.fields, current.value.fields;
      assert b + c == c <==> b.Keys <= c.Keys by {
        assert (b + c).Keys == b.Keys + c.Keys;
      }
    }
  }

  /** The delta of a declared child, which names its slot in any case. */
  lemma {:induction false} NamedDeltaRestored(current: Meta, baseline: Meta)
    requires DeclId in current
    ensures MergeMeta(baseline, DeltaMeta(current, baseline)[DeclId := current[DeclId]]) == current
            <==> baseline.Keys <= current.Keys
  {
    MetaDeltaRoundTrip(current, baseline);
    var named := DeltaMeta(current, baseline)[DeclId := current[DeclId]];
    assert MergeMeta(baseline, named).Keys >= baseline.Keys;
  }

  /** A node's metadata and its data come back exactly when its saved form can express them. */
  lemma {:induction false} FieldsRestored(schema: Schema, node: Record, saved: Option<Record>, allow: bool,
                                          filled: Option<Record>)
    requires DeclId in node.meta && node.data != Some(Null) && BaseOf(schema, node, filled).data != Some(Null)
    requires Fits(schema, node, saved, allow, filled)
    ensures var base := BaseOf(schema, node, filled);
            && (MergeMeta(base.meta, SavedMeta(schema, node, saved, allow)) == node.meta
                <==> MetaExpressible(schema, node, saved, allow, filled))
            && (MergeData(base.data, SavedData(schema, node, saved, allow)) == node.data
                <==> DataExpressible(schema, node, saved, allow, filled))
  {
    var base := BaseOf(schema, node, filled);
    if saved.Some? && allow {
      NamedDeltaRestored(node.meta, base.meta);
      DataRestored(node.data, base.data);
    } else if saved.Some? {
      FullMetaRoundTrip(node.meta, base.meta);
      RawDataRestored(node.data, base.data);
    } else {
      MetaDeltaRoundTrip(node.meta, base.meta);
      DataRestored(node.data, base.data);
    }
  }

  // ---------------------------------------------------------------------
  // Saved children find their slots again
  // ---------------------------------------------------------------------

  /** What is saved for a node claims a slot only if the node itself does. */
  lemma {:induction false} SavedClaimsOwnSlot(s: Saver, node: Record, saved: Option<Record>, allow: bool, b: Record)
    requires allow ==> saved.Some?
    ensures var e := Encode(s, node, saved, allow);
            && (e.Some? && SameSlot(e.value, b) ==> SameSlot(node, b))
            && (e.Some? && saved.Some? && SameSlot(node, b) ==> SameSlot(e.value, b))
            && (e.Some? && saved.Some? && !allow && ShortName in node.meta ==> HasPayload(e.value))
  {
    var e := Encode(s, node, saved, allow);
    if e.Some? && saved.Some? && !allow && ShortName in node.meta {
      assert ShortName in e.value.meta;
    }
  }

  /** Children behind a slot save nothing that claims it. */
  lemma {:induction false} OthersLeaveSlotAlone(s: Saver, nodes: seq<Record>, slots: seq<Record>, b: Record)
    requires forall n | n in nodes :: !SameSlot(n, b)
    ensures forall o | o in EncodeAll(s, nodes, slots) :: !SameSlot(o, b)
    decreases |nodes|
  {
    if nodes != [] {
      SavedClaimsOwnSlot(s, nodes[0], FindSlot(nodes[0], slots), MayOmit(nodes[0], slots), b);
      assert !SameSlot(nodes[0], b);
      OthersLeaveSlotAlone(s, nodes[1..], slots, b);
    }
  }

  lemma {:induction false} EncodeAllConcat(s: Saver, a: seq<Record>, b: seq<Record>, slots: seq<Record>)
    ensures EncodeAll(s, a + b, slots) == EncodeAll(s, a, slots) + EncodeAll(s, b, slots)
    decreases |a|
  {
    if a == [] {
      assert a + b == b;
    } else {
      assert (a + b)[1..] == a[1..] + b;
      EncodeAllConcat(s, a[1..], b, slots);
    }
  }

  /** What is saved for one child among what is saved for its siblings. */
  lemma {:induction false} EncodeAllAround(s: Saver, nodes: seq<Record>, i: nat, slots: seq<Record>)
    requires i < |nodes|
    ensures var before, after := EncodeAll(s, nodes[..i], slots), EncodeAll(s, nodes[i + 1..], slots);
            && EncodeAll(s, Without(nodes, i), slots) == before + after
            && EncodeAll(s, nodes, slots)
               == before + (match EncodeChild(s, nodes[i], slots) case Some(e) => [e] case None => []) + after
  {
    assert nodes == nodes[..i] + nodes[i..] && nodes[i..][1..] == nodes[i + 1..];
    EncodeAllConcat(s, nodes[..i], nodes[i + 1..], slots);
    EncodeAllConcat(s, nodes[..i], nodes[i..], slots);
  }

  /** Dropping every claim on a slot that nobody claims drops nothing. */
  lemma {:induction false} NothingToDrop(overlays: seq<Record>, b: Record)
    requires forall o | o in overlays :: !SameSlot(o, b)
    ensures WithoutSlot(overlays, b) == overlays
    decreases |overlays|
  {
    if overlays != [] {
      NothingToDrop(overlays[1..], b);
    }
  }

  lemma {:induction false} DropBetween(before: seq<Record>, e: Record, after: seq<Record>, b: Record)
    requires SameSlot(e, b)
    requires (forall o | o in before :: !SameSlot(o, b)) && (forall o | o in after :: !SameSlot(o, b))
    ensures WithoutSlot(before + [e] + after, b) == before + after
    decreases |before|
  {
    var all := before + [e] + after;
    if before == [] {
      NothingToDrop(after, b);
      assert all[1..] == after;
    } else {
      assert all[1..] == before[1..] + [e] + after;
      DropBetween(before[1..], e, after, b);
    }
  }

  lemma {:induction false} FirstChosenAt(before: seq<Record>, e: Record, after: seq<Record>, b: Record,
                                         withPayload: bool)
    requires Chosen(e, b, withPayload) && forall o | o in before :: !SameSlot(o, b)
    ensures AnyMatch(before + [e] + after, b, withPayload)
    ensures FirstChosen(before + [e] + after, b, withPayload) == |before|
  {
    hide SameSlot, HasPayload;
    var all := before + [e] + after;
    assert all[|before|] == e;
    assert AnyMatch(all, b, withPayload);
    forall k | 0 <= k < |before|
      ensures !Chosen(all[k], b, withPayload)
    {
      assert all[k] == before[k] && before[k] in before;
    }
  }

  /** An unrepeated slot takes the one saved child that claims it. */
  lemma {:induction false} UnrepeatedPick(before: seq<Record>, e: Record, after: seq<Record>, slots: seq<Record>,
                                          b: Record)
    requires SameSlot(e, b) && SlotCount(slots, b) <= 1
    requires (forall o | o in before :: !SameSlot(o, b)) && (forall o | o in after :: !SameSlot(o, b))
    ensures Pick(before + [e] + after, b) == Some(|before|)
    ensures Unused(before + [e] + after, slots, b) == before + after
  {
    var all := before + [e] + after;
    FirstChosenAt(before, e, after, b, false);
    if HasPayload(e) {
      FirstChosenAt(before, e, after, b, true);
    } else {
      assert forall i | 0 <= i < |all| && i != |before| :: all[i] in before || all[i] in after;
      assert all[|before|] == e;
    }
    DropBetween(before, e, after, b);
  }

  /** A repeated slot takes the first saved child that claims it, and only that one. */
  lemma {:induction false} RepeatedPick(before: seq<Record>, e: Record, after: seq<Record>, slots: seq<Record>,
                                        b: Record)
    requires SameSlot(e, b) && HasPayload(e) && SlotCount(slots, b) > 1 && forall o | o in before :: !SameSlot(o, b)
    ensures Pick(before + [e] + after, b) == Some(|before|)
    ensures Unused(before + [e] + after, slots, b) == before + after
  {
    var all := before + [e] + after;
    FirstChosenAt(before, e, after, b, true);
    assert all[..|before|] == before && all[|before| + 1..] == after;
  }

  /** Only the claimant of an unrepeated slot claims it. */
  lemma {:induction false} LaterTakeOtherSlots(nodes: seq<Record>, i: nat, slots: seq<Record>, b: Record)
    requires Unrivalled(nodes, slots) && i < |nodes| && MayOmit(nodes[i], slots) && SameSlot(nodes[i], b)
    ensures forall n | n in nodes[i + 1..] :: !SameSlot(n, b)
  {
    forall n | n in nodes[i + 1..]
      ensures !SameSlot(n, b)
    {
      var k :| i + 1 <= k < |nodes| && nodes[k] == n;
      assert !SameSlot(nodes[i], nodes[k]);
    }
  }

  lemma {:induction false} NextUnrepeatedSlot(s: Saver, nodes: seq<Record>, i: nat, slots: seq<Record>, b: Record)
    requires Claimant(nodes, b) == Some(i) && SlotCount(slots, b) <= 1
    requires MayOmit(nodes[i], slots) && Unrivalled(nodes, slots)
    ensures var e, all := EncodeChild(s, nodes[i], slots), EncodeAll(s, nodes, slots);
            && Unused(all, slots, b) == EncodeAll(s, Without(nodes, i), slots)
            && (e.None? ==> Pick(all, b).None?)
            && (e.Some? ==> Pick(all, b).Some? && all[Pick(all, b).value] == e.value)
  {
    var child := nodes[i];
    var e := EncodeChild(s, child, slots);
    var before, after := EncodeAll(s, nodes[..i], slots), EncodeAll(s, nodes[i + 1..], slots);
    EncodeAllAround(s, nodes, i, slots);
    SavedClaimsOwnSlot(s, child, FindSlot(child, slots), MayOmit(child, slots), b);
    OthersLeaveSlotAlone(s, nodes[..i], slots, b);
    LaterTakeOtherSlots(nodes, i, slots, b);
    OthersLeaveSlotAlone(s, nodes[i + 1..], slots, b);
    hide *;
    if e.Some? {
      UnrepeatedPick(before, e.value, after, slots, b);
    } else {
      assert before + [] + after == before + after;
      NobodyClaims(before + after, slots, b);
    }
  }

  lemma {:induction false} NextRepeatedSlot(s: Saver, nodes: seq<Record>, i: nat, slots: seq<Record>, b: Record)
    requires Claimant(nodes, b) == Some(i) && SlotCount(slots, b) > 1
    requires EncodeChild(s, nodes[i], slots).Some? && !MayOmit(nodes[i], slots) && FindSlot(nodes[i], slots).Some?
    requires ShortName in nodes[i].meta
    ensures var e, all := EncodeChild(s, nodes[i], slots), EncodeAll(s, nodes, slots);
            && Unused(all, slots, b) == EncodeAll(s, Without(nodes, i), slots)
            && Pick(all, b).Some? && all[Pick(all, b).value] == e.value
  {
    var child := nodes[i];
    var e := EncodeChild(s, child, slots).value;
    var before, after := EncodeAll(s, nodes[..i], slots), EncodeAll(s, nodes[i + 1..], slots);
    EncodeAllAround(s, nodes, i, slots);
    SavedClaimsOwnSlot(s, child, FindSlot(child, slots), false, b);
    OthersLeaveSlotAlone(s, nodes[..i], slots, b);
    hide *;
    RepeatedPick(before, e, after, slots, b);
  }

  /** Filling a slot takes exactly what its claimant saved, and leaves what the other children saved. */
  lemma {:induction false} NextSlot(s: Saver, nodes: seq<Record>, i: nat, slots: seq<Record>, b: Record)
    requires Claimant(nodes, b) == Some(i) && b in slots && Unrivalled(nodes, slots)
    requires !s.omits(nodes[i].meta) && ShortName in nodes[i].meta
    ensures var e, all := EncodeChild(s, nodes[i], slots), EncodeAll(s, nodes, slots);
            && Unused(all, slots, b) == EncodeAll(s, Without(nodes, i), slots)
            && (e.None? ==> Pick(all, b).None?)
            && (e.Some? ==> Pick(all, b).Some? && all[Pick(all, b).value] == e.value)
  {
    SlotCountByIdentity(slots, FindSlot(nodes[i], slots).value, b);
    if MayOmit(nodes[i], slots) {
      NextUnrepeatedSlot(s, nodes, i, slots, b);
    } else {
      NextRepeatedSlot(s, nodes, i, slots, b);
    }
  }

  lemma {:induction false} NobodyClaims(overlays: seq<Record>, slots: seq<Record>, b: Record)
    requires forall o | o in overlays :: !SameSlot(o, b)
    ensures Pick(overlays, b).None? && Unused(overlays, slots, b) == overlays
  {
  }

  // ---------------------------------------------------------------------
  // What comes back of one node
  // ---------------------------------------------------------------------

  /** What comes back of a node: its saved form expanded, or, if it is left out, the declared default in its place. */
  function Came(s: Saver, node: Record, saved: Option<Record>, allow: bool, filled: Option<Record>): Record {
    match Encode(s, node, saved, allow)
    case Some(e) => Expand(s.schema, e, filled)
    case None => if filled.Some? then filled.value else node
  }

  function CameAt(s: Saver, spot: Spot, slots: seq<Record>): Record {
    match spot
    case Missing(default) => default
    case Taken(child, slot) => Came(s, child, FindSlot(child, slots), MayOmit(child, slots), slot)
  }

  function CameAll(s: Saver, spots: seq<Spot>, slots: seq<Record>): (r: seq<Record>)
    ensures |r| == |spots| && forall i | 0 <= i < |spots| :: r[i] == CameAt(s, spots[i], slots)
  {
    if spots == [] then [] else [CameAt(s, spots[0], slots)] + CameAll(s, spots[1..], slots)
  }

  /** What the children saved as `overlays` expand to, the declared slots `todo` first. */
  function Expanded(schema: Schema, parent: Record, overlays: seq<Record>, slots: seq<Record>,
                    todo: seq<Record>): seq<Record>
    requires forall o | o in overlays :: o in parent.children
  {
    var a := Assign(overlays, slots, todo);
    FillSlots(schema, parent, a.picks, todo) + ExpandExtras(schema, parent, a.leftover)
  }

  lemma {:induction false} ExpandedSlot(schema: Schema, parent: Record, overlays: seq<Record>, slots: seq<Record>,
                                        todo: seq<Record>)
    requires forall o | o in overlays :: o in parent.children
    requires todo != []
    ensures var pick := Pick(overlays, todo[0]);
            Expanded(schema, parent, overlays, slots, todo)
            == [if pick.Some? then Expand(schema, overlays[pick.value], Some(todo[0])) else todo[0]]
               + Expanded(schema, parent, Unused(overlays, slots, todo[0]), slots, todo[1..])
  {
  }

  /** Children without rivals, none of which is left to another file. */
  ghost predicate Level(s: Saver, nodes: seq<Record>, slots: seq<Record>) {
    && Unrivalled(nodes, slots)
    && forall n | n in nodes :: !s.omits(n.meta) && ShortName in n.meta
  }

  /** What nobody takes is saved in any case. */
  ghost predicate OthersAreSaved(s: Saver, spots: seq<Spot>, slots: seq<Record>) {
    forall spot | spot in spots && spot.Taken? && spot.slot.None? :: EncodeChild(s, spot.child, slots).Some?
  }

  /** Expanding what the children saved gives the children laid out, each as it comes back. */
  lemma {:induction false} ChildrenCome(s: Saver, nodes: seq<Record>, slots: seq<Record>, todo: seq<Record>, e: Record)
    requires Level(s, nodes, slots) && OthersAreSaved(s, Layout(nodes, todo), slots)
    requires forall b | b in todo :: b in slots
    requires forall o | o in EncodeAll(s, nodes, slots) :: o in e.children
    ensures Expanded(s.schema, e, EncodeAll(s, nodes, slots), slots, todo) == CameAll(s, Layout(nodes, todo), slots)
    decreases |todo|
  {
    if todo == [] {
      OthersCome(s, nodes, slots, e);
    } else {
      match Claimant(nodes, todo[0])
      case None =>
        MissingStep(s, nodes, slots, todo, e);
        ChildrenCome(s, nodes, slots, todo[1..], e);
      case Some(i) =>
        StillUnrivalled(nodes, i, slots);
        TakenStep(s, nodes, slots, todo, e, i);
        ChildrenCome(s, Without(nodes, i), slots, todo[1..], e);
    }
  }

  lemma {:induction false} MissingStep(s: Saver, nodes: seq<Record>, slots: seq<Record>, todo: seq<Record>, e: Record)
    requires forall o | o in EncodeAll(s, nodes, slots) :: o in e.children
    requires todo != [] && Claimant(nodes, todo[0]).None?
    ensures var all := EncodeAll(s, nodes, slots);
            && Expanded(s.schema, e, all, slots, todo) == [todo[0]] + Expanded(s.schema, e, all, slots, todo[1..])
            && CameAll(s, Layout(nodes, todo), slots) == [todo[0]] + CameAll(s, Layout(nodes, todo[1..]), slots)
            && (OthersAreSaved(s, Layout(nodes, todo), slots) ==> OthersAreSaved(s, Layout(nodes, todo[1..]), slots))
  {
    var all := EncodeAll(s, nodes, slots);
    OthersLeaveSlotAlone(s, nodes, slots, todo[0]);
    NobodyClaims(all, slots, todo[0]);
    ExpandedSlot(s.schema, e, all, slots, todo);
    assert Layout(nodes, todo)[0] == Missing(todo[0]) && Layout(nodes, todo)[1..] == Layout(nodes, todo[1..]);
  }

  lemma {:induction false} TakenStep(s: Saver, nodes: seq<Record>, slots: seq<Record>, todo: seq<Record>, e: Record,
                                     i: nat)
    requires forall o | o in EncodeAll(s, nodes, slots) :: o in e.children
    requires todo != [] && Claimant(nodes, todo[0]) == Some(i) && todo[0] in slots && Level(s, nodes, slots)
    ensures var left, child := Without(nodes, i), CameAt(s, Taken(nodes[i], Some(todo[0])), slots);
            && (forall o | o in EncodeAll(s, left, slots) :: o in e.children)
            && Expanded(s.schema, e, EncodeAll(s, nodes, slots), slots, todo)
               == [child] + Expanded(s.schema, e, EncodeAll(s, left, slots), slots, todo[1..])
            && CameAll(s, Layout(nodes, todo), slots) == [child] + CameAll(s, Layout(left, todo[1..]), slots)
            && (OthersAreSaved(s, Layout(nodes, todo), slots) ==> OthersAreSaved(s, Layout(left, todo[1..]), slots))
  {
    hide Expand, Pick, Unused, Encode, EncodeAll, SameSlot, SlotCount;
    var left, spots := Without(nodes, i), Layout(nodes, todo);
    assert spots[0] == Taken(nodes[i], Some(todo[0])) && spots[1..] == Layout(left, todo[1..]);
    NextSlot(s, nodes, i, slots, todo[0]);
    ExpandedSlot(s.schema, e, EncodeAll(s, nodes, slots), slots, todo);
  }

  lemma {:induction false} OthersCome(s: Saver, nodes: seq<Record>, slots: seq<Record>, e: Record)
    requires OthersAreSaved(s, Others(nodes), slots)
    requires forall o | o in EncodeAll(s, nodes, slots) :: o in e.children
    ensures ExpandExtras(s.schema, e, EncodeAll(s, nodes, slots)) == CameAll(s, Others(nodes), slots)
    decreases |nodes|
  {
    if nodes != [] {
      var all, rest, spots := EncodeAll(s, nodes, slots), EncodeAll(s, nodes[1..], slots), Others(nodes);
      assert spots[0] == Taken(nodes[0], None) && spots[1..] == Others(nodes[1..]);
      assert EncodeChild(s, spots[0].child, slots).Some?;
      assert all == [EncodeChild(s, nodes[0], slots).value] + rest && all[1..] == rest;
      OthersCome(s, nodes[1..], slots, e);
    }
  }

  /** Laid out without rivals, a child that nobody takes is one that may not be left out. */
  lemma {:induction false} LevelSavesOthers(s: Saver, nodes: seq<Record>, slots: seq<Record>)
    requires Level(s, nodes, slots)
    ensures OthersAreSaved(s, Layout(nodes, slots), slots)
  {
    assert slots[0..] == slots;
    forall spot | spot in Layout(nodes, slots) && spot.Taken? && spot.slot.None?
      ensures EncodeChild(s, spot.child, slots).Some?
    {
      if MayOmit(spot.child, slots) {
        UnrepeatedIsPlaced(nodes, slots, 0, spot);
      }
    }
  }

  /** Expanding what was saved for a node gives it with its merged
      fields over its children laid out, each as it comes back. */
  lemma {:induction false} RoundTrip(s: Saver, node: Record, saved: Option<Record>, allow: bool, filled: Option<Record>)
    requires SchemaIsConsistent(s.schema) && Fits(s.schema, node, saved, allow, filled)
    requires Level(s, node.children, SlotsIn(s.schema, node))
    requires Encode(s, node, saved, allow).Some?
    ensures var base, slots := BaseOf(s.schema, node, filled), SlotsIn(s.schema, node);
            Came(s, node, saved, allow, filled)
            == Record(node.uuid, node.nodeType, node.role,
                      MergeMeta(base.meta, SavedMeta(s.schema, node, saved, allow)),
                      MergeData(base.data, SavedData(s.schema, node, saved, allow)),
                      CameAll(s, Layout(node.children, slots), slots))
  {
    var e := Encode(s, node, saved, allow).value;
    var slots := SlotsIn(s.schema, node);
    MergeMetaTwice(s.schema(node.nodeType, node.role).meta, e.meta);
    MergeDataTwice(s.schema(node.nodeType, node.role).data, e.data);
    assert SlotsOf(s.schema, node, saved) == slots;
    assert e.children == EncodeAll(s, node.children, slots);
    LevelSavesOthers(s, node.children, slots);
    ChildrenCome(s, node.children, slots, slots, e);
    assert ExpansionBaseline(s.schema, e, filled).children == slots;
  }

  /** A node that is left out comes back as its declared default, which is
      the same fields and children laid out; and nobody refers to it. */
  lemma {:induction false} LeftOutComes(s: Saver, node: Record, b: Record)
    requires !s.omits(node.meta) && Fits(s.schema, node, Some(b), true, Some(b))
    requires Level(s, node.children, SlotsIn(s.schema, node))
    requires Encode(s, node, Some(b), true).None?
    ensures var slots := SlotsIn(s.schema, node);
            b == Record(b.uuid, node.nodeType, node.role,
                        MergeMeta(b.meta, SavedMeta(s.schema, node, Some(b), true)),
                        MergeData(b.data, SavedData(s.schema, node, Some(b), true)),
                        CameAll(s, Layout(node.children, slots), slots))
    ensures node.uuid !in s.referenced
  {
    var slots := SlotsIn(s.schema, node);
    assert EncodeAll(s, node.children, slots) == [];
    LevelSavesOthers(s, node.children, slots);
    LeftOutChildren(s, node.children, slots, slots);
    assert DeclId in node.meta ==> DeclId !in DeltaMeta(node.meta, b.meta);
    assert MergeMeta(b.meta, SavedMeta(s.schema, node, Some(b), true)) == b.meta;
  }

  lemma {:induction false} LeftOutChildren(s: Saver, nodes: seq<Record>, slots: seq<Record>, todo: seq<Record>)
    requires EncodeAll(s, nodes, slots) == [] && OthersAreSaved(s, Layout(nodes, todo), slots)
    ensures CameAll(s, Layout(nodes, todo), slots) == todo
    decreases |todo|
  {
    var spots := Layout(nodes, todo);
    if todo == [] {
      if nodes != [] {
        SomeOther(s, nodes, slots);
      }
    } else {
      var claimant := Claimant(nodes, todo[0]);
      var left := if claimant.Some? then Without(nodes, claimant.value) else nodes;
      assert spots[1..] == Layout(left, todo[1..]);
      if claimant.Some? {
        EncodeAllAround(s, nodes, claimant.value, slots);
        assert spots[0] == Taken(nodes[claimant.value], Some(todo[0]));
      }
      LeftOutChildren(s, left, slots, todo[1..]);
      assert CameAll(s, spots, slots) == [CameAt(s, spots[0], slots)] + CameAll(s, spots[1..], slots);
    }
  }

  lemma {:induction false} SomeOther(s: Saver, nodes: seq<Record>, slots: seq<Record>)
    requires OthersAreSaved(s, Others(nodes), slots) && nodes != []
    ensures EncodeAll(s, nodes, slots) != []
  {
    assert Others(nodes)[0] == Taken(nodes[0], None);
    assert EncodeChild(s, Others(nodes)[0].child, slots).Some?;
  }

  /** Saved or left out, what comes back of a node is its merged fields over its children laid out. */
  lemma {:induction false} Comes(s: Saver, node: Record, saved: Option<Record>, allow: bool, filled: Option<Record>)
    requires SchemaIsConsistent(s.schema) && !s.omits(node.meta) && Fits(s.schema, node, saved, allow, filled)
    requires Level(s, node.children, SlotsIn(s.schema, node))
    ensures var base, slots := BaseOf(s.schema, node, filled), SlotsIn(s.schema, node);
            var came := Came(s, node, saved, allow, filled);
            && came.nodeType == node.nodeType && came.role == node.role
            && came.meta == MergeMeta(base.meta, SavedMeta(s.schema, node, saved, allow))
            && came.data == MergeData(base.data, SavedData(s.schema, node, saved, allow))
            && came.children == CameAll(s, Layout(node.children, slots), slots)
            && (came.uuid == node.uuid || node.uuid !in s.referenced)
  {
    if Encode(s, node, saved, allow).Some? {
      RoundTrip(s, node, saved, allow, filled);
    } else {
      LeftOutComes(s, node, saved.value);
    }
  }

}
