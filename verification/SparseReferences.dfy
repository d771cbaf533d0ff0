/** References between the nodes of a project survive saving and loading, unless they lead into another file. */
module SparseReferences {
  import opened UiTypes
  import opened SparseDeltas
  import opened SparseCodec
  import opened SparseArrangement
  import opened SparseRoundTrip
  import opened SparseProjects
  import opened SparseSaving

  /** The uuids a node of some type refers to from its data. */
  type Visit = (string, Option<Json>) -> set<string>

  /** Every uuid that some node of the tree refers to. */
  function CollectReferencedUuids(visit: Visit, node: Record): set<string>
    decreases node, 0
  {
    visit(node.nodeType, node.data) + CollectFromAll(visit, node.children)
  }

  function CollectFromAll(visit: Visit, nodes: seq<Record>): set<string>
    decreases nodes, 0
  {
    if nodes == [] then {} else CollectReferencedUuids(visit, nodes[0]) + CollectFromAll(visit, nodes[1..])
  }

  lemma {:induction false} CollectedFromChild(visit: Visit, nodes: seq<Record>, i: nat)
    requires i < |nodes|
    ensures CollectReferencedUuids(visit, nodes[i]) <= CollectFromAll(visit, nodes)
    decreases i
  {
    if i > 0 {
      CollectedFromChild(visit, nodes[1..], i - 1);
      assert nodes[1..][i - 1] == nodes[i];
    }
  }

  lemma {:induction false} CollectedFrom(visit: Visit, node: Record, path: seq<nat>)
    requires At(node, path).Some?
    ensures visit(At(node, path).value.nodeType, At(node, path).value.data) <= CollectReferencedUuids(visit, node)
    decreases |path|
  {
    if path != [] {
      CollectedFrom(visit, node.children[path[0]], path[1..]);
      CollectedFromChild(visit, node.children, path[0]);
    }
  }

  lemma {:induction false} CollectedIn(visit: Visit, nodes: seq<Record>, uuid: string) returns (i: nat)
    requires uuid in CollectFromAll(visit, nodes)
    ensures i < |nodes| && uuid in CollectReferencedUuids(visit, nodes[i])
    decreases |nodes|
  {
    if uuid in CollectReferencedUuids(visit, nodes[0]) {
      return 0;
    }
    var j := CollectedIn(visit, nodes[1..], uuid);
    i := j + 1;
  }

  lemma {:induction false} CollectedSomewhere(visit: Visit, node: Record, uuid: string) returns (path: seq<nat>)
    requires uuid in CollectReferencedUuids(visit, node)
    ensures At(node, path).Some? && uuid in visit(At(node, path).value.nodeType, At(node, path).value.data)
    decreases node
  {
    if uuid in visit(node.nodeType, node.data) {
      return [];
    }
    var i := CollectedIn(visit, node.children, uuid);
    var rest := CollectedSomewhere(visit, node.children[i], uuid);
    path := [i] + rest;
    assert path[1..] == rest;
  }

  /** What is collected is what some node of the tree refers to. */
  lemma {:induction false} CollectedExactly(visit: Visit, node: Record, uuid: string)
    ensures uuid in CollectReferencedUuids(visit, node)
            <==> exists path :: At(node, path).Some?
                                && uuid in visit(At(node, path).value.nodeType, At(node, path).value.data)
  {
    if uuid in CollectReferencedUuids(visit, node) {
      var path := CollectedSomewhere(visit, node, uuid);
    }
    if path :| At(node, path).Some? && uuid in visit(At(node, path).value.nodeType, At(node, path).value.data) {
      CollectedFrom(visit, node, path);
    }
  }

  // ---------------------------------------------------------------------
  // Places
  // ---------------------------------------------------------------------

  /** Matching trees have matching nodes in the same places. */
  lemma {:induction false} PlacesSurvive(a: Record, n: Record, referenced: set<string>, part: Part, path: seq<nat>)
    requires Matches(a, n, referenced, part)
    ensures At(a, path).Some? <==> At(n, path).Some?
    ensures At(n, path).Some? ==> Matches(At(a, path).value, At(n, path).value, referenced, part)
    decreases |path|
  {
    if path != [] && path[0] < |n.children| {
      PlacesSurvive(a.children[path[0]], n.children[path[0]], referenced, part, path[1..]);
    }
  }

  /** A tree is saved, and no two of its kept children claim one slot. */
  ghost predicate Placeable(s: Saver, root: Record) {
    Savable(s, root) && NoRivals(s.schema, Pruned(s.omits, root))
  }

  /** A kept node has a place in the loaded tree, with as much of its
      fields as the saved form of the tree can express. */
  lemma {:induction false} KeptNodeIsLoaded(s: Saver, root: Record, path: seq<nat>, part: Part) returns (p: seq<nat>)
    requires Placeable(s, root) && KeptPath(s.omits, root, path)
    requires part.Places? || AllExpressible(s.schema, Pruned(s.omits, root), part)
    ensures SavedTree(s, root).Some? && At(root, path).Some?
    ensures var landed, node := At(Loaded(s.schema, SavedTree(s, root).value), p), At(root, path).value;
            && landed.Some?
            && landed.value.nodeType == node.nodeType
            && landed.value.role == node.role
            && (landed.value.uuid == node.uuid || node.uuid !in s.referenced)
            && (!part.Places? ==> landed.value.data == node.data)
            && (part.Everything? ==> landed.value.meta == node.meta)
  {
    var kept := Pruned(s.omits, root);
    PlacesAreExpressible(s.schema, kept, Some(StructuralRoot(s.schema, root)), false, None);
    ProjectRoundTrip(s, root, part);
    var q := PrunedPath(s.omits, root, path);
    p := ArrangedPath(s.schema, kept, q);
    PlacesSurvive(Loaded(s.schema, SavedTree(s, root).value), Arranged(s.schema, kept), s.referenced, part, p);
  }

  /** A reference from one kept place of a tree to another is the same reference after saving and loading,
      if all kept data is expressible; and the metadata there is the same if that is expressible, too. */
  lemma {:induction false} ReferencesSurvive(s: Saver, visit: Visit, root: Record, from: seq<nat>, to: seq<nat>,
                                             part: Part)
    returns (source: seq<nat>, target: seq<nat>)
    requires Placeable(s, root) && !part.Places? && AllExpressible(s.schema, Pruned(s.omits, root), part)
    requires CollectReferencedUuids(visit, root) <= s.referenced
    requires KeptPath(s.omits, root, from) && KeptPath(s.omits, root, to)
    requires At(root, from).Some? && At(root, to).Some?
    requires At(root, to).value.uuid in visit(At(root, from).value.nodeType, At(root, from).value.data)
    ensures SavedTree(s, root).Some?
    ensures var loaded := Loaded(s.schema, SavedTree(s, root).value);
            && At(loaded, source).Some? && At(loaded, target).Some?
            && At(loaded, source).value.data == At(root, from).value.data
            && At(loaded, target).value.data == At(root, to).value.data
            && At(loaded, target).value.uuid == At(root, to).value.uuid
            && At(loaded, target).value.uuid in visit(At(loaded, source).value.nodeType, At(loaded, source).value.data)
            && (part.Everything? ==>
                  && At(loaded, source).value.meta == At(root, from).value.meta
                  && At(loaded, target).value.meta == At(root, to).value.meta)
  {
    CollectedFrom(visit, root, from);
    source := KeptNodeIsLoaded(s, root, from, part);
    target := KeptNodeIsLoaded(s, root, to, part);
  }

  // ---------------------------------------------------------------------
  // Which uuids survive
  // ---------------------------------------------------------------------

  ghost predicate Carries(node: Record, uuid: string)
    decreases node
  {
    node.uuid == uuid || exists i :: 0 <= i < |node.children| && Carries(node.children[i], uuid)
  }

  /** No declared child is created with this uuid. */
  ghost predicate Unissued(schema: Schema, uuid: string) {
    forall t, r, i | 0 <= i < |schema(t, r).children| :: !Carries(schema(t, r).children[i], uuid)
  }

  lemma {:induction false} CarriedAt(node: Record, uuid: string) returns (path: seq<nat>)
    requires Carries(node, uuid)
    ensures At(node, path).Some? && At(node, path).value.uuid == uuid
    decreases node
  {
    if node.uuid == uuid {
      return [];
    }
    var i :| 0 <= i < |node.children| && Carries(node.children[i], uuid);
    var rest := CarriedAt(node.children[i], uuid);
    path := [i] + rest;
    assert path[1..] == rest;
  }

  lemma {:induction false} CarriedFrom(node: Record, path: seq<nat>)
    requires At(node, path).Some?
    ensures Carries(node, At(node, path).value.uuid)
    decreases |path|
  {
    if path != [] {
      CarriedFrom(node.children[path[0]], path[1..]);
    }
  }

  /** What is saved carries only uuids of kept nodes. */
  lemma {:induction false} SavedCarries(s: Saver, node: Record, matched: Option<Record>, allow: bool, uuid: string)
    requires Encode(s, node, matched, allow).Some? && Carries(Encode(s, node, matched, allow).value, uuid)
    ensures exists path :: KeptPath(s.omits, node, path) && At(node, path).Some? && At(node, path).value.uuid == uuid
    decreases node, 1
  {
    var saved := Encode(s, node, matched, allow).value;
    if node.uuid == uuid {
      assert KeptPath(s.omits, node, []) && At(node, []).value.uuid == uuid;
    } else {
      var i :| 0 <= i < |saved.children| && Carries(saved.children[i], uuid);
      assert saved.children[i] in saved.children;
      var k := SavedChildCarries(s, node, node.children, SlotsOf(s.schema, node, matched), saved.children[i], uuid);
      var rest :| KeptPath(s.omits, node.children[k], rest) && At(node.children[k], rest).Some?
                  && At(node.children[k], rest).value.uuid == uuid;
      var path := [k] + rest;
      assert path[1..] == rest;
      assert KeptPath(s.omits, node, path) && At(node, path).value.uuid == uuid;
    }
  }

  lemma {:induction false} SavedChildCarries(s: Saver, parent: Record, nodes: seq<Record>, slots: seq<Record>,
                                             e: Record, uuid: string)
    returns (k: nat)
    requires forall n | n in nodes :: n in parent.children
    requires e in EncodeAll(s, nodes, slots) && Carries(e, uuid)
    ensures k < |nodes|
    ensures exists path ::
              KeptPath(s.omits, nodes[k], path) && At(nodes[k], path).Some? && At(nodes[k], path).value.uuid == uuid
    decreases parent, 0, |nodes|
  {
    var first := EncodeChild(s, nodes[0], slots);
    assert nodes[0] in parent.children;
    if first == Some(e) {
      SavedCarries(s, nodes[0], FindSlot(nodes[0], slots), MayOmit(nodes[0], slots), uuid);
      return 0;
    }
    var j := SavedChildCarries(s, parent, nodes[1..], slots, e, uuid);
    k := j + 1;
  }

  ghost predicate NoneCarry(nodes: seq<Record>, uuid: string) {
    forall i | 0 <= i < |nodes| :: !Carries(nodes[i], uuid)
  }

  lemma {:induction false} NoneCarryIn(nodes: seq<Record>, uuid: string, n: Record)
    requires NoneCarry(nodes, uuid) && n in nodes
    ensures !Carries(n, uuid) && NoneCarry(n.children, uuid)
  {
  }

  /** Expansion brings in no uuid but those of what was saved and of declared defaults. */
  lemma {:induction false} ExpansionCarriesNoMore(schema: Schema, overlay: Record, matched: Option<Record>,
                                                  uuid: string)
    requires Unissued(schema, uuid) && !Carries(overlay, uuid)
    requires matched.Some? ==> NoneCarry(matched.value.children, uuid)
    ensures !Carries(Expand(schema, overlay, matched), uuid)
    decreases overlay, 1
  {
    var slots := ExpansionBaseline(schema, overlay, matched).children;
    var filled := Assign(overlay.children, slots, slots);
    assert NoneCarry(slots, uuid);
    FilledCarryNoMore(schema, overlay, filled.picks, slots, uuid);
    ExtrasCarryNoMore(schema, overlay, filled.leftover, uuid);
  }

  lemma {:induction false} FilledCarryNoMore(schema: Schema, parent: Record, picks: seq<Option<Record>>,
                                             slots: seq<Record>, uuid: string)
    requires Unissued(schema, uuid) && NoneCarry(parent.children, uuid) && NoneCarry(slots, uuid)
    requires |picks| == |slots|
    requires forall p | p in picks && p.Some? :: p.value in parent.children
    ensures NoneCarry(FillSlots(schema, parent, picks, slots), uuid)
    decreases parent, 0, |picks|
  {
    if picks != [] {
      assert picks[0] in picks && slots[0] in slots;
      NoneCarryIn(slots, uuid, slots[0]);
      if picks[0].Some? {
        NoneCarryIn(parent.children, uuid, picks[0].value);
        ExpansionCarriesNoMore(schema, picks[0].value, Some(slots[0]), uuid);
      }
      FilledCarryNoMore(schema, parent, picks[1..], slots[1..], uuid);
    }
  }

  lemma {:induction false} ExtrasCarryNoMore(schema: Schema, parent: Record, extras: seq<Record>, uuid: string)
    requires Unissued(schema, uuid) && NoneCarry(parent.children, uuid)
    requires forall o | o in extras :: o in parent.children
    ensures NoneCarry(ExpandExtras(schema, parent, extras), uuid)
    decreases parent, 0, |extras|
  {
    if extras != [] {
      assert extras[0] in extras;
      NoneCarryIn(parent.children, uuid, extras[0]);
      ExpansionCarriesNoMore(schema, extras[0], None, uuid);
      ExtrasCarryNoMore(schema, parent, extras[1..], uuid);
    }
  }

  /** A uuid that somebody refers to is in the loaded tree exactly when a kept node
      carries it, provided declared defaults are created with uuids of their own. */
  lemma {:induction false} ReferredUuidSurvives(s: Saver, root: Record, uuid: string)
    requires Placeable(s, root) && uuid in s.referenced && Unissued(s.schema, uuid)
    ensures SavedTree(s, root).Some?
    ensures Carries(Loaded(s.schema, SavedTree(s, root).value), uuid)
            <==> exists path ::
                   KeptPath(s.omits, root, path) && At(root, path).Some? && At(root, path).value.uuid == uuid
  {
    ProjectRoundTrip(s, root, Places);
    var saved := SavedTree(s, root).value;
    if path :| KeptPath(s.omits, root, path) && At(root, path).Some? && At(root, path).value.uuid == uuid {
      var p := KeptNodeIsLoaded(s, root, path, Places);
      CarriedFrom(Loaded(s.schema, saved), p);
    }
    if Carries(saved, uuid) {
      SavedCarries(s, root, Some(StructuralRoot(s.schema, root)), false, uuid);
    } else {
      ExpansionCarriesNoMore(s.schema, saved, None, uuid);
    }
  }

  // ---------------------------------------------------------------------
  // Defaults that nobody refers to
  // ---------------------------------------------------------------------

  /** No two of the declared children, at any level, have the same identity. */
  ghost predicate Distinct(b: Record)
    decreases b
  {
    && (forall i | 0 <= i < |b.children| :: DeclId in b.children[i].meta && Distinct(b.children[i]))
    && forall i, j | 0 <= i < j < |b.children| :: !SameSlot(b.children[i], b.children[j])
  }

  /** A child that is, uuids aside, its declared default throughout,
      and no uuid of which is referred to, is left out. */
  lemma {:induction false} DefaultIsLeftOut(s: Saver, node: Record, b: Record)
    requires Matches(node, b, {}, Everything) && Distinct(b)
    requires forall uuid | uuid in s.referenced :: !Carries(node, uuid)
    ensures NothingToSave(s, node, b)
    ensures Encode(s, node, Some(b), true).None?
    decreases node
  {
    forall i | 0 <= i < |node.children|
      ensures ClaimsOnly(node.children[i], b.children, i) && NothingToSave(s, node.children[i], b.children[i])
    {
      DefaultIsLeftOut(s, node.children[i], b.children[i]);
      assert DeclId in b.children[i].meta;
      forall j | 0 <= j < |b.children| && j != i
        ensures !SameSlot(node.children[i], b.children[j])
      {
        assert !SameSlot(b.children[if i < j then i else j], b.children[if i < j then j else i]);
      }
    }
    LeftOutExactly(s, node, b);
  }

  // ---------------------------------------------------------------------
  // A reference that is lost
  // ---------------------------------------------------------------------

  function Plain(uuid: string, declId: string, data: Option<Json>, children: seq<Record>): Record {
    Record(uuid, "folder", Detached, map[DeclId := declId, ShortName := declId], data, children)
  }

  /** A project whose only own node refers to a node of the preferences beside it: the preferences are left out, and the
      saved node refers to a node that the file does not have. */
  lemma {:induction false} ReferenceIntoPreferencesIsLost(tagged: string -> bool)
    ensures var schema: Schema := (t, r) => Record("", t, r, map[], None, []);
            var preferences := Plain("p", PREFERENCES_DECL_ID, None, []);
            var user := Plain("u", "user", Some(Text("p")), []);
            var root := Plain("r", "root", None, [preferences, user]);
            var saved := SavedTree(ProjectSaver(schema, {"p"}, tagged), root);
            && saved.Some?
            && saved.value.children == [Record("u", "folder", Detached, user.meta, Some(Text("p")), [])]
            && !Carries(Loaded(schema, saved.value), "p")
  {
    var schema: Schema := (t, r) => Record("", t, r, map[], None, []);
    var s := ProjectSaver(schema, {"p"}, tagged);
    var preferences := Plain("p", PREFERENCES_DECL_ID, None, []);
    var user := Plain("u", "user", Some(Text("p")), []);
    var root := Plain("r", "root", None, [preferences, user]);
    assert EncodeAll(s, [], []) == [];
    assert EncodeChild(s, preferences, []).None?;
    assert user.meta[DeclId] != PREFERENCES_DECL_ID by {
      assert "user"[0] == 'u' && PREFERENCES_DECL_ID[0] == 'p';
    }
    var e := Record("u", "folder", Detached, user.meta, Some(Text("p")), []);
    assert SavedMeta(schema, user, None, false) == user.meta;
    assert EncodeChild(s, user, []) == Some(e);
    assert [preferences, user][1..] == [user] && [user][1..] == [];
    assert EncodeAll(s, [user], []) == [e];
    assert EncodeAll(s, root.children, []) == [e];
    var saved := SavedTree(s, root);
    assert root.meta[DeclId] != PREFERENCES_DECL_ID by {
      assert "root"[0] == 'r' && PREFERENCES_DECL_ID[0] == 'p';
    }
    assert saved.Some? && saved.value.children == [e];
    assert !Carries(saved.value, "p");
    ExpansionCarriesNoMore(schema, saved.value, None, "p");
  }
}
