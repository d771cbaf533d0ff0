/** What a save writes: which nodes are left out, and which fields of the others are saved. */
module SparseSaving {
  import opened UiTypes
  import opened SparseDeltas
  import opened SparseCodec
  import opened SparseRoundTrip

  // ---------------------------------------------------------------------
  // What is left out
  // ---------------------------------------------------------------------

  /** Every metadata field of the node is in `b` with the same value, and the node has no data or that of `b`. */
  predicate AddsNothing(node: Record, b: Record) {
    && (forall f | f in node.meta :: f in b.meta && b.meta[f] == node.meta[f])
    && (node.data.None? || node.data == Some(Null) || node.data == b.data)
  }

  /** The child claims slot `k` and no other. */
  ghost predicate ClaimsOnly(child: Record, slots: seq<Record>, k: nat) {
    && k < |slots| && SameSlot(child, slots[k])
    && forall j | 0 <= j < |slots| && j != k :: !SameSlot(child, slots[j])
  }

  /** The node adds nothing to its default, nobody refers to it, and so it is for each of its children
      against the one slot that the child claims, except for children that are left to another file. */
  ghost predicate NothingToSave(s: Saver, node: Record, b: Record)
    decreases node
  {
    && node.uuid !in s.referenced
    && AddsNothing(node, b)
    && forall i | 0 <= i < |node.children| && !s.omits(node.children[i].meta) ::
         exists k: nat ::
           ClaimsOnly(node.children[i], b.children, k) && NothingToSave(s, node.children[i], b.children[k])
  }

  lemma {:induction false} CountsOnce(slots: seq<Record>, b: Record, k: nat)
    requires forall j | 0 <= j < |slots| && j != k :: !SameSlot(slots[j], b)
    ensures SlotCount(slots, b) <= 1
    decreases |slots|
  {
    hide SameSlot;
    if slots != [] {
      var rest := slots[1..];
      assert forall j | 0 <= j < |rest| :: rest[j] == slots[j + 1];
      if k == 0 {
        NobodyCounts(rest, b);
      } else {
        assert !SameSlot(slots[0], b);
        CountsOnce(rest, b, k - 1);
      }
    }
  }

  /** A child may be left out exactly if it claims one slot and no other. */
  lemma {:induction false} OmittableExactly(child: Record, slots: seq<Record>)
    ensures MayOmit(child, slots) <==> exists k: nat :: ClaimsOnly(child, slots, k)
    ensures forall k: nat | ClaimsOnly(child, slots, k) :: FindSlot(child, slots) == Some(slots[k])
  {
    var slot := FindSlot(child, slots);
    if slot.Some? {
      var first :| 0 <= first < |slots| && slots[first] == slot.value;
      assert forall j | 0 <= j < |slots| :: SameSlot(slots[j], slot.value) <==> SameSlot(child, slots[j]);
      assert SameSlot(child, slots[first]);
      hide SameSlot, FindSlot;
      if ClaimsOnly(child, slots, first) {
        CountsOnce(slots, slot.value, first);
      } else {
        var j :| 0 <= j < |slots| && j != first && SameSlot(child, slots[j]);
        SlotCountsTwo(slots, slot.value, if j < first then j else first, if j < first then first else j);
      }
    }
  }

  lemma {:induction false} NoneSaved(s: Saver, nodes: seq<Record>, slots: seq<Record>)
    ensures EncodeAll(s, nodes, slots) == []
            <==> forall i | 0 <= i < |nodes| :: EncodeChild(s, nodes[i], slots).None?
    decreases |nodes|
  {
    hide EncodeChild;
    if nodes != [] {
      var rest := nodes[1..];
      NoneSaved(s, rest, slots);
      assert forall i | 0 <= i < |rest| :: rest[i] == nodes[i + 1];
      assert forall i | 1 <= i < |nodes| :: nodes[i] == rest[i - 1];
    }
  }

  lemma {:induction false} DefaultBackedExactly(node: Record, b: Record)
    ensures DefaultBacked(node, Some(b)) <==> AddsNothing(node, b)
  {
    var delta := DeltaMeta(node.meta, b.meta);
    assert delta == map[] <==> forall f | f in node.meta :: f !in delta;
    DeltaIsNothing(Read(node.data), b.data);
  }

  lemma {:induction false} DeltaIsNothing(current: Json, baseline: Option<Json>)
    ensures Diff(current, baseline).Null? <==> current.Null? || baseline == Some(current)
  {
    if baseline.Some? && current != baseline.value && current.Object? && baseline.value.Object? {
      var c, b := current.fields, baseline.value.fields;
      if b.Keys <= c.Keys && DifferingFields(c, b) == map[] {
        NothingDiffers(c, b);
      }
    }
  }

  lemma {:induction false} NothingDiffers(c: Fields, b: Fields)
    requires b.Keys <= c.Keys && DifferingFields(c, b) == map[]
    ensures c == b
  {
    forall k | k in c
      ensures k in b && b[k] == c[k]
    {
      assert k !in DifferingFields(c, b);
    }
  }

  /** A child of an unrepeated slot is left out exactly if it belongs
      to another file, or there is nothing to save of it. */
  lemma {:induction false} LeftOutExactly(s: Saver, node: Record, b: Record)
    ensures Encode(s, node, Some(b), true).None? <==> s.omits(node.meta) || NothingToSave(s, node, b)
    decreases node
  {
    DefaultBackedExactly(node, b);
    if !s.omits(node.meta) && AddsNothing(node, b) {
      var nodes, slots := node.children, b.children;
      assert SlotsOf(s.schema, node, Some(b)) == slots;
      NoneSaved(s, nodes, slots);
      forall i | 0 <= i < |nodes|
        ensures EncodeChild(s, nodes[i], slots).None?
                <==> s.omits(nodes[i].meta)
                     || exists k: nat :: ClaimsOnly(nodes[i], slots, k) && NothingToSave(s, nodes[i], slots[k])
      {
        ChildLeftOut(s, node, i, slots);
      }
    }
  }

  lemma {:induction false} ChildLeftOut(s: Saver, parent: Record, i: nat, slots: seq<Record>)
    requires i < |parent.children|
    ensures var child := parent.children[i];
            EncodeChild(s, child, slots).None?
            <==> s.omits(child.meta)
                 || exists k: nat :: ClaimsOnly(child, slots, k) && NothingToSave(s, child, slots[k])
    decreases parent, 0
  {
    var child := parent.children[i];
    OmittableExactly(child, slots);
    forall k: nat | ClaimsOnly(child, slots, k)
      ensures Encode(s, child, Some(slots[k]), true).None? <==> s.omits(child.meta) || NothingToSave(s, child, slots[k])
    {
      LeftOutExactly(s, child, slots[k]);
    }
    hide NothingToSave, ClaimsOnly, MayOmit, FindSlot;
  }

  // ---------------------------------------------------------------------
  // What is saved
  // ---------------------------------------------------------------------

  /** Exactly the fields that `base` lacks or holds differently are saved. */
  ghost predicate SavesDifferences(current: Meta, base: Meta, saved: Meta) {
    && (forall f :: f in saved <==> f in current && (f !in base || base[f] != current[f]))
    && forall f | f in saved :: saved[f] == current[f]
  }

  /** Exactly the fields that are no description and no optional field at its default are saved. */
  ghost predicate SavesInFull(current: Meta, saved: Meta) {
    && (forall f :: f in saved
          <==> && f in current
               && f != Description && f != DeclaredDescriptionKey && f != DeclaredDescription
               && (f == Tags || f == UserPermissions || f == Semantics || f == Presentation ==>
                     current[f] != DEFAULT_VALUE))
    && forall f | f in saved :: saved[f] == current[f]
  }

  /** No data is saved if there is none or it is that of `base`; of an object that has all keys of `base`, exactly the
      differing ones are; and any other data is saved as it is. */
  ghost predicate SavesData(current: Option<Json>, base: Option<Json>, saved: Option<Json>) {
    if current.None? || current == Some(Null) || current == base then saved == None
    else if base.Some? && base.value.Object? && current.value.Object?
            && base.value.fields.Keys <= current.value.fields.Keys then
      && saved.Some? && saved.value.Object?
      && var b, c, r := base.value.fields, current.value.fields, saved.value.fields;
         && (forall key :: key in r <==> key in c && (key !in b || b[key] != c[key]))
         && forall key | key in r :: r[key] == c[key]
    else saved == current
  }

  lemma {:induction false} DiffSavesData(current: Option<Json>, base: Option<Json>)
    ensures SavesData(current, base, Persisted(Diff(Read(current), base)))
  {
    DeltaIsNothing(Read(current), base);
  }

  /** The saved form of a node names it, and holds of its fields: of a child of an unrepeated slot what differs from
      the slot, and in any case its declared id; of a child of a repeated slot and of a root all but descriptions and
      default options; of any other child what differs from the default of its type. */
  lemma {:induction false} SavedForm(s: Saver, node: Record, matched: Option<Record>, allow: bool)
    requires allow ==> matched.Some?
    requires Encode(s, node, matched, allow).Some?
    ensures var e := Encode(s, node, matched, allow).value;
            && e.uuid == node.uuid && e.nodeType == node.nodeType && e.role == node.role
            && (allow ==>
                  && SavesDifferences(node.meta - {DeclId}, matched.value.meta - {DeclId}, e.meta - {DeclId})
                  && (DeclId in e.meta <==> DeclId in node.meta)
                  && (DeclId in e.meta ==> e.meta[DeclId] == node.meta[DeclId])
                  && SavesData(node.data, matched.value.data, e.data))
            && (matched.Some? && !allow ==>
                  && SavesInFull(node.meta, e.meta)
                  && SavesData(node.data, None, e.data))
            && (matched.None? ==>
                  var default := s.schema(node.nodeType, node.role);
                  && SavesDifferences(node.meta, default.meta, e.meta)
                  && SavesData(node.data, default.data, e.data))
  {
    hide EncodeAll;
    if allow {
      DiffSavesData(node.data, matched.value.data);
    } else if matched.None? {
      DiffSavesData(node.data, s.schema(node.nodeType, node.role).data);
    }
  }

  /** The saved children are the saved forms of the kept ones, in their order. */
  lemma {:induction false} SavedInOrder(s: Saver, nodes: seq<Record>, last: Record, slots: seq<Record>)
    ensures EncodeAll(s, nodes + [last], slots)
            == EncodeAll(s, nodes, slots) + (match EncodeChild(s, last, slots) case Some(e) => [e] case None => [])
  {
    hide EncodeChild;
    EncodeAllConcat(s, nodes, [last], slots);
    assert [last][1..] == [];
    assert EncodeAll(s, [], slots) == [];
  }
}
