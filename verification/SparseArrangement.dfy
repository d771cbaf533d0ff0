/** The tree a saved project describes: what belongs to another file
    is gone, and every declared child is in its place. */
module SparseArrangement {
  import opened UiTypes
  import opened SparseDeltas
  import opened SparseCodec

  // ---------------------------------------------------------------------
  // Leaving nodes to another file
  // ---------------------------------------------------------------------

  /** The tree without the subtrees that are left to another file. */
  function Pruned(omits: Meta -> bool, node: Record): Record
    decreases node, 0
  {
    node.(children := PrunedAll(omits, node.children))
  }

  function PrunedAll(omits: Meta -> bool, nodes: seq<Record>): seq<Record>
    decreases nodes, 0
  {
    if nodes == [] then []
    else (if omits(nodes[0].meta) then [] else [Pruned(omits, nodes[0])]) + PrunedAll(omits, nodes[1..])
  }

  /** Some node of the tree is left to another file. */
  ghost predicate Holds(omits: Meta -> bool, node: Record)
    decreases node
  {
    omits(node.meta) || exists i :: 0 <= i < |node.children| && Holds(omits, node.children[i])
  }

  lemma {:induction false} PrunedHoldsNone(omits: Meta -> bool, node: Record)
    requires !omits(node.meta)
    ensures !Holds(omits, Pruned(omits, node))
    decreases node, 1
  {
    AllPrunedHoldNone(omits, node, node.children);
  }

  lemma {:induction false} AllPrunedHoldNone(omits: Meta -> bool, parent: Record, nodes: seq<Record>)
    requires forall n | n in nodes :: n in parent.children
    ensures forall n | n in PrunedAll(omits, nodes) :: !Holds(omits, n)
    decreases parent, 0, |nodes|
  {
    if nodes != [] {
      assert nodes[0] in parent.children;
      if !omits(nodes[0].meta) {
        PrunedHoldsNone(omits, nodes[0]);
      }
      AllPrunedHoldNone(omits, parent, nodes[1..]);
    }
  }

  /** A tree that holds nothing of the kind is not pruned. */
  lemma {:induction false} NothingPruned(omits: Meta -> bool, node: Record)
    requires !Holds(omits, node)
    ensures Pruned(omits, node) == node
    decreases node, 1
  {
    AllUnpruned(omits, node, 0);
    assert node.children[0..] == node.children;
  }

  lemma {:induction false} AllUnpruned(omits: Meta -> bool, parent: Record, i: nat)
    requires !Holds(omits, parent) && i <= |parent.children|
    ensures PrunedAll(omits, parent.children[i..]) == parent.children[i..]
    decreases parent, 0, |parent.children| - i
  {
    if i < |parent.children| {
      var nodes := parent.children[i..];
      assert !Holds(omits, parent.children[i]);
      NothingPruned(omits, parent.children[i]);
      AllUnpruned(omits, parent, i + 1);
      assert nodes[1..] == parent.children[i + 1..];
    }
  }

  lemma {:induction false} SlotByIdentity(a: Record, b: Record, slots: seq<Record>)
    requires a.meta == b.meta && a.nodeType == b.nodeType && a.role == b.role
    ensures FindSlot(a, slots) == FindSlot(b, slots) && MayOmit(a, slots) == MayOmit(b, slots)
    decreases |slots|
  {
    if slots != [] {
      SlotByIdentity(a, b, slots[1..]);
    }
  }

  /** Saving a tree is saving what is left of it after pruning. */
  lemma {:induction false} OmittingIsPruning(s: Saver, node: Record, matched: Option<Record>, allow: bool)
    requires !s.omits(node.meta)
    ensures Encode(s, node, matched, allow) == Encode(s, Pruned(s.omits, node), matched, allow)
    decreases node, 1
  {
    var pruned := Pruned(s.omits, node);
    assert SlotsOf(s.schema, node, matched) == SlotsOf(s.schema, pruned, matched);
    AllOmittedArePruned(s, node, node.children, SlotsOf(s.schema, node, matched));
  }

  lemma {:induction false} AllOmittedArePruned(s: Saver, parent: Record, nodes: seq<Record>, slots: seq<Record>)
    requires forall n | n in nodes :: n in parent.children
    ensures EncodeAll(s, nodes, slots) == EncodeAll(s, PrunedAll(s.omits, nodes), slots)
    decreases parent, 0, |nodes|
  {
    if nodes != [] {
      var child := nodes[0];
      assert child in parent.children;
      AllOmittedArePruned(s, parent, nodes[1..], slots);
      if s.omits(child.meta) {
        assert EncodeChild(s, child, slots).None?;
        assert PrunedAll(s.omits, nodes) == PrunedAll(s.omits, nodes[1..]);
      } else {
        var pruned := Pruned(s.omits, child);
        OmittingIsPruning(s, child, FindSlot(child, slots), MayOmit(child, slots));
        SlotByIdentity(child, pruned, slots);
        assert EncodeChild(s, child, slots) == EncodeChild(s, pruned, slots);
        assert PrunedAll(s.omits, nodes) == [pruned] + PrunedAll(s.omits, nodes[1..]);
        assert PrunedAll(s.omits, nodes)[1..] == PrunedAll(s.omits, nodes[1..]);
      }
    }
  }

  // ---------------------------------------------------------------------
  // Putting declared children in their places
  // ---------------------------------------------------------------------

  /** The first child that claims a slot. */
  function Claimant(nodes: seq<Record>, slot: Record): (r: Option<nat>)
    ensures r.Some? ==> r.value < |nodes| && SameSlot(nodes[r.value], slot)
    ensures r.Some? ==> forall j | 0 <= j < r.value :: !SameSlot(nodes[j], slot)
    ensures r.None? ==> forall n | n in nodes :: !SameSlot(n, slot)
  {
    if nodes == [] then None
    else if SameSlot(nodes[0], slot) then Some(0)
    else
      match Claimant(nodes[1..], slot)
      case Some(i) => Some(i + 1)
      case None => None
  }

  function Without(nodes: seq<Record>, i: nat): (r: seq<Record>)
    requires i < |nodes|
    ensures forall n | n in r :: n in nodes
  {
    nodes[..i] + nodes[i + 1..]
  }

  /** Declared children depend only on type and role, also below another default. */
  ghost predicate SchemaIsConsistent(schema: Schema) {
    forall t, r, i | 0 <= i < |schema(t, r).children| ::
      var c := schema(t, r).children[i];
      c.children == schema(c.nodeType, c.role).children
  }

  /** Every declared child has a declared id. */
  ghost predicate DeclaresIds(schema: Schema) {
    forall t, r, i | 0 <= i < |schema(t, r).children| :: DeclId in schema(t, r).children[i].meta
  }

  /** One place among a node's children: a declared slot that nobody
      claims, or a child, with the slot it takes if any. */
  datatype Spot = Missing(default: Record) | Taken(child: Record, slot: Option<Record>)

  /** Children that take no slot. */
  function Others(nodes: seq<Record>): (r: seq<Spot>)
    ensures |r| == |nodes| && forall i | 0 <= i < |nodes| :: r[i] == Taken(nodes[i], None)
  {
    if nodes == [] then [] else [Taken(nodes[0], None)] + Others(nodes[1..])
  }

  /** Every slot of `todo` in turn takes the first child that claims it and is not taken yet; the other children follow
      in their own order. */
  function Layout(nodes: seq<Record>, todo: seq<Record>): (r: seq<Spot>)
    ensures forall spot | spot in r && spot.Taken? :: spot.child in nodes
    decreases |todo|
  {
    if todo == [] then Others(nodes) else
    match Claimant(nodes, todo[0])
    case None => [Missing(todo[0])] + Layout(nodes, todo[1..])
    case Some(i) => [Taken(nodes[i], Some(todo[0]))] + Layout(Without(nodes, i), todo[1..])
  }

  function SlotsIn(schema: Schema, node: Record): seq<Record> {
    schema(node.nodeType, node.role).children
  }

  /** The tree with its declared children first, in declared order and with the default for each missing one, then the
      other children in their own order. */
  function Arranged(schema: Schema, node: Record): Record
    decreases node, 1
  {
    node.(children := ArrangedAll(schema, node, Layout(node.children, SlotsIn(schema, node))))
  }

  function ArrangedAll(schema: Schema, parent: Record, spots: seq<Spot>): (r: seq<Record>)
    requires forall spot | spot in spots && spot.Taken? :: spot.child in parent.children
    ensures |r| == |spots|
    decreases parent, 0, |spots|
  {
    if spots == [] then [] else
    assert spots[0] in spots;
    [match spots[0] case Missing(default) => default case Taken(child, _) => Arranged(schema, child)]
    + ArrangedAll(schema, parent, spots[1..])
  }

  lemma {:induction false} ArrangedAt(schema: Schema, parent: Record, spots: seq<Spot>, i: nat)
    requires forall spot | spot in spots && spot.Taken? :: spot.child in parent.children
    requires i < |spots|
    ensures ArrangedAll(schema, parent, spots)[i]
            == match spots[i] case Missing(default) => default case Taken(child, _) => Arranged(schema, child)
    decreases i
  {
    if i > 0 {
      ArrangedAt(schema, parent, spots[1..], i - 1);
    }
  }

  /** Every declared child is present, in declared order, and whatever else there is comes after. */
  ghost predicate ChildrenInOrder(children: seq<Record>, slots: seq<Record>) {
    && |slots| <= |children|
    && forall i | 0 <= i < |slots| :: SameSlot(children[i], slots[i])
  }

  ghost predicate InOrder(schema: Schema, node: Record)
    decreases node
  {
    && ChildrenInOrder(node.children, SlotsIn(schema, node))
    && forall i | 0 <= i < |node.children| :: InOrder(schema, node.children[i])
  }

  lemma {:induction false} FirstTaken(nodes: seq<Record>, todo: seq<Record>)
    requires ChildrenInOrder(nodes, todo) && todo != []
    ensures Layout(nodes, todo) == [Taken(nodes[0], Some(todo[0]))] + Layout(nodes[1..], todo[1..])
    ensures ChildrenInOrder(nodes[1..], todo[1..])
  {
    hide SameSlot;
    assert SameSlot(nodes[0], todo[0]);
    assert Claimant(nodes, todo[0]) == Some(0);
    assert Without(nodes, 0) == nodes[1..];
  }

  lemma {:induction false} LaidOutInOrder(nodes: seq<Record>, todo: seq<Record>, i: nat)
    requires ChildrenInOrder(nodes, todo)
    ensures |Layout(nodes, todo)| == |nodes|
    ensures i < |nodes| ==> Layout(nodes, todo)[i].Taken? && Layout(nodes, todo)[i].child == nodes[i]
    decreases |todo|
  {
    if todo != [] {
      FirstTaken(nodes, todo);
      LaidOutInOrder(nodes[1..], todo[1..], if i == 0 then 0 else i - 1);
    }
  }

  /** A tree that has its declared children in order is as it should be. */
  lemma {:induction false} ArrangedInOrder(schema: Schema, node: Record)
    requires InOrder(schema, node)
    ensures Arranged(schema, node) == node
    decreases node
  {
    var spots := Layout(node.children, SlotsIn(schema, node));
    LaidOutInOrder(node.children, SlotsIn(schema, node), 0);
    var out := ArrangedAll(schema, node, spots);
    forall i | 0 <= i < |node.children|
      ensures out[i] == node.children[i]
    {
      ArrangedInOrder(schema, node.children[i]);
      LaidOutInOrder(node.children, SlotsIn(schema, node), i);
      ArrangedAt(schema, node, spots, i);
    }
    assert out == node.children;
  }

  lemma {:induction false} LaidOutSlots(nodes: seq<Record>, todo: seq<Record>, spot: Spot)
    requires spot in Layout(nodes, todo)
    ensures spot.Missing? ==> spot.default in todo
    ensures spot.Taken? && spot.slot.Some? ==> spot.slot.value in todo && SameSlot(spot.child, spot.slot.value)
    decreases |todo|
  {
    if todo != [] {
      var left := match Claimant(nodes, todo[0]) case None => nodes case Some(i) => Without(nodes, i);
      if spot in Layout(left, todo[1..]) {
        LaidOutSlots(left, todo[1..], spot);
      }
    }
  }

  lemma {:induction false} LaidOutAt(nodes: seq<Record>, todo: seq<Record>, i: nat)
    requires i < |todo|
    ensures var spots := Layout(nodes, todo);
            && i < |spots|
            && (spots[i].Missing? ==> spots[i].default == todo[i])
            && (spots[i].Taken? ==> spots[i].slot == Some(todo[i]) && SameSlot(spots[i].child, todo[i]))
    decreases |todo|
  {
    if i > 0 {
      var left := match Claimant(nodes, todo[0]) case None => nodes case Some(k) => Without(nodes, k);
      LaidOutAt(left, todo[1..], i - 1);
      assert Layout(nodes, todo)[1..] == Layout(left, todo[1..]);
    }
  }

  lemma {:induction false} DefaultsAreInOrder(schema: Schema, default: Record)
    requires SchemaIsConsistent(schema) && DeclaresIds(schema) && default.children == SlotsIn(schema, default)
    ensures InOrder(schema, default)
    decreases default
  {
    var slots := SlotsIn(schema, default);
    forall i | 0 <= i < |default.children|
      ensures InOrder(schema, default.children[i])
    {
      assert slots[i].children == SlotsIn(schema, slots[i]);
      DefaultsAreInOrder(schema, default.children[i]);
    }
    forall i | 0 <= i < |slots|
      ensures SameSlot(default.children[i], slots[i])
    {
      assert DeclId in schema(default.nodeType, default.role).children[i].meta;
    }
  }

  /** The arranged tree has its declared children in order, whatever order they were in. */
  lemma {:induction false} ArrangedIsInOrder(schema: Schema, node: Record)
    requires SchemaIsConsistent(schema) && DeclaresIds(schema)
    ensures InOrder(schema, Arranged(schema, node))
    decreases node, 1
  {
    var slots := SlotsIn(schema, node);
    var spots := Layout(node.children, slots);
    var out := Arranged(schema, node).children;
    if slots != [] {
      LaidOutAt(node.children, slots, |slots| - 1);
    }
    forall i | 0 <= i < |slots|
      ensures i < |out| && SameSlot(out[i], slots[i])
    {
      LaidOutAt(node.children, slots, i);
      ArrangedAt(schema, node, spots, i);
      assert DeclId in schema(node.nodeType, node.role).children[i].meta;
    }
    forall i | 0 <= i < |out|
      ensures InOrder(schema, out[i])
    {
      ArrangedAt(schema, node, spots, i);
      SpotInOrder(schema, node, i);
    }
  }

  lemma {:induction false} SpotInOrder(schema: Schema, node: Record, i: nat)
    requires SchemaIsConsistent(schema) && DeclaresIds(schema)
    requires i < |Layout(node.children, SlotsIn(schema, node))|
    ensures match Layout(node.children, SlotsIn(schema, node))[i]
            case Missing(default) => InOrder(schema, default)
            case Taken(child, _) => InOrder(schema, Arranged(schema, child))
    decreases node, 0
  {
    var spots := Layout(node.children, SlotsIn(schema, node));
    assert spots[i] in spots;
    LaidOutSlots(node.children, SlotsIn(schema, node), spots[i]);
    match spots[i]
    case Missing(default) => DefaultsAreInOrder(schema, default);
    case Taken(child, _) => ArrangedIsInOrder(schema, child);
  }

  /** No declared child is left to another file. */
  ghost predicate DeclaresNone(omits: Meta -> bool, schema: Schema) {
    forall t, r, i | 0 <= i < |schema(t, r).children| :: !omits(schema(t, r).children[i].meta)
  }

  lemma {:induction false} DefaultsHoldNone(omits: Meta -> bool, schema: Schema, default: Record)
    requires SchemaIsConsistent(schema) && DeclaresNone(omits, schema) && default.children == SlotsIn(schema, default)
    requires !omits(default.meta)
    ensures !Holds(omits, default)
    decreases default
  {
    var slots := SlotsIn(schema, default);
    forall i | 0 <= i < |default.children|
      ensures !Holds(omits, default.children[i])
    {
      assert slots[i].children == SlotsIn(schema, slots[i]);
      DefaultsHoldNone(omits, schema, default.children[i]);
    }
  }

  /** Arranging adds nothing that is left to another file. */
  lemma {:induction false} ArrangedHoldsNone(omits: Meta -> bool, schema: Schema, node: Record)
    requires SchemaIsConsistent(schema) && DeclaresNone(omits, schema) && !Holds(omits, node)
    ensures !Holds(omits, Arranged(schema, node))
    decreases node, 1
  {
    var spots := Layout(node.children, SlotsIn(schema, node));
    var out := Arranged(schema, node).children;
    forall i | 0 <= i < |out|
      ensures !Holds(omits, out[i])
    {
      ArrangedAt(schema, node, spots, i);
      SpotHoldsNone(omits, schema, node, i);
    }
  }

  lemma {:induction false} ChildHoldsNone(omits: Meta -> bool, node: Record, child: Record)
    requires !Holds(omits, node) && child in node.children
    ensures !Holds(omits, child)
  {
    var k :| 0 <= k < |node.children| && node.children[k] == child;
    assert !Holds(omits, node.children[k]);
  }

  lemma {:induction false} SpotHoldsNone(omits: Meta -> bool, schema: Schema, node: Record, i: nat)
    requires SchemaIsConsistent(schema) && DeclaresNone(omits, schema) && !Holds(omits, node)
    requires i < |Layout(node.children, SlotsIn(schema, node))|
    ensures match Layout(node.children, SlotsIn(schema, node))[i]
            case Missing(default) => !Holds(omits, default)
            case Taken(child, _) => !Holds(omits, Arranged(schema, child))
    decreases node, 0
  {
    var spots := Layout(node.children, SlotsIn(schema, node));
    assert spots[i] in spots;
    LaidOutSlots(node.children, SlotsIn(schema, node), spots[i]);
    match spots[i]
    case Missing(default) =>
      DefaultsHoldNone(omits, schema, default);
    case Taken(child, _) =>
      ChildHoldsNone(omits, node, child);
      ArrangedHoldsNone(omits, schema, child);
  }

  /** Loading keeps the order of a tree exactly when its declared children are in order. */
  lemma {:induction false} OrderIsKept(schema: Schema, node: Record)
    requires SchemaIsConsistent(schema) && DeclaresIds(schema)
    ensures Arranged(schema, node) == node <==> InOrder(schema, node)
  {
    ArrangedIsInOrder(schema, node);
    if InOrder(schema, node) {
      ArrangedInOrder(schema, node);
    }
  }

  // ---------------------------------------------------------------------
  // Places
  // ---------------------------------------------------------------------

  /** The node a path of child positions leads to. */
  function At(node: Record, path: seq<nat>): Option<Record> {
    if path == [] then Some(node)
    else if path[0] < |node.children| then At(node.children[path[0]], path[1..])
    else None
  }

  /** The path leads to a node, and no node on its way is left to another file. */
  ghost predicate KeptPath(omits: Meta -> bool, node: Record, path: seq<nat>)
    decreases |path|
  {
    && !omits(node.meta)
    && (path == [] || (path[0] < |node.children| && KeptPath(omits, node.children[path[0]], path[1..])))
  }

  lemma {:induction false} KeptChild(omits: Meta -> bool, nodes: seq<Record>, i: nat) returns (j: nat)
    requires i < |nodes| && !omits(nodes[i].meta)
    ensures j < |PrunedAll(omits, nodes)| && PrunedAll(omits, nodes)[j] == Pruned(omits, nodes[i])
    decreases i
  {
    if i == 0 {
      return 0;
    }
    var k := KeptChild(omits, nodes[1..], i - 1);
    j := if omits(nodes[0].meta) then k else k + 1;
  }

  /** A node that is not left to another file has its place in the pruned tree. */
  lemma {:induction false} PrunedPath(omits: Meta -> bool, node: Record, path: seq<nat>) returns (p: seq<nat>)
    requires KeptPath(omits, node, path)
    ensures At(node, path).Some? && At(Pruned(omits, node), p) == Some(Pruned(omits, At(node, path).value))
    decreases |path|
  {
    if path == [] {
      return [];
    }
    assert KeptPath(omits, node.children[path[0]], path[1..]);
    var j := KeptChild(omits, node.children, path[0]);
    var rest := PrunedPath(omits, node.children[path[0]], path[1..]);
    p := [j] + rest;
    assert p[1..] == rest;
  }

  lemma {:induction false} LeftOrTaken(nodes: seq<Record>, i: nat, n: Record)
    requires i < |nodes| && n in nodes
    ensures n == nodes[i] || n in Without(nodes, i)
  {
    var k :| 0 <= k < |nodes| && nodes[k] == n;
    if k < i {
      assert Without(nodes, i)[k] == n;
    } else if i < k {
      assert Without(nodes, i)[k - 1] == n;
    }
  }

  /** Laying out children drops none. */
  lemma {:induction false} LaidOut(nodes: seq<Record>, todo: seq<Record>, n: Record) returns (j: nat)
    requires n in nodes
    ensures j < |Layout(nodes, todo)| && Layout(nodes, todo)[j].Taken? && Layout(nodes, todo)[j].child == n
    decreases |todo|
  {
    hide SameSlot, Without;
    if todo == [] {
      j :| 0 <= j < |nodes| && nodes[j] == n;
      return;
    }
    var left := nodes;
    if Claimant(nodes, todo[0]).Some? {
      var i := Claimant(nodes, todo[0]).value;
      left := Without(nodes, i);
      LeftOrTaken(nodes, i, n);
      if nodes[i] == n {
        return 0;
      }
    }
    var k := LaidOut(left, todo[1..], n);
    j := k + 1;
  }

  lemma {:induction false} ArrangedChild(schema: Schema, node: Record, i: nat) returns (j: nat)
    requires i < |node.children|
    ensures j < |Arranged(schema, node).children|
            && Arranged(schema, node).children[j] == Arranged(schema, node.children[i])
  {
    j := LaidOut(node.children, SlotsIn(schema, node), node.children[i]);
    ArrangedAt(schema, node, Layout(node.children, SlotsIn(schema, node)), j);
  }

  /** Every node has its place in the arranged tree. */
  lemma {:induction false} ArrangedPath(schema: Schema, node: Record, path: seq<nat>) returns (p: seq<nat>)
    requires At(node, path).Some?
    ensures At(Arranged(schema, node), p) == Some(Arranged(schema, At(node, path).value))
    decreases |path|
  {
    if path == [] {
      return [];
    }
    var j := ArrangedChild(schema, node, path[0]);
    var rest := ArrangedPath(schema, node.children[path[0]], path[1..]);
    p := [j] + rest;
    assert p[1..] == rest;
  }
}
