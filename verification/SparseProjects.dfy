/** Whole projects: which trees come back from a file as they were, and what becomes of the others. */
module SparseProjects {
  import opened UiTypes
  import opened SparseDeltas
  import opened SparseCodec
  import opened SparseArrangement
  import opened SparseExpansion
  import opened SparseRoundTrip

  // ---------------------------------------------------------------------
  // Comparing trees
  // ---------------------------------------------------------------------

  /** `a` has a node wherever `n` has one, of the same type and role and with the same uuid if that is referred to; and
      with the same data and metadata as far as they are asked for. */
  ghost predicate Matches(a: Record, n: Record, referenced: set<string>, part: Part)
    decreases n
  {
    && a.nodeType == n.nodeType
    && a.role == n.role
    && (part.Everything? ==> a.meta == n.meta)
    && (!part.Places? ==> a.data == n.data)
    && (a.uuid == n.uuid || n.uuid !in referenced)
    && |a.children| == |n.children|
    && forall i | 0 <= i < |n.children| :: Matches(a.children[i], n.children[i], referenced, part)
  }

  /** `a` is `n` up to uuids, and keeps every uuid that is referred to. */
  ghost predicate Faithful(a: Record, n: Record, referenced: set<string>) {
    Matches(a, n, referenced, Everything)
  }

  lemma {:induction false} MatchesItself(n: Record, referenced: set<string>, part: Part)
    ensures Matches(n, n, referenced, part)
    decreases n
  {
    forall i | 0 <= i < |n.children|
      ensures Matches(n.children[i], n.children[i], referenced, part)
    {
      MatchesItself(n.children[i], referenced, part);
    }
  }

  /** What decides which slots a record claims. */
  predicate SameIdentity(a: Record, b: Record) {
    && a.nodeType == b.nodeType
    && a.role == b.role
    && (DeclId in a.meta <==> DeclId in b.meta)
    && (DeclId in a.meta ==> a.meta[DeclId] == b.meta[DeclId])
  }

  lemma {:induction false} CountByIdentity(xs: seq<Record>, ys: seq<Record>, b: Record)
    requires |xs| == |ys| && forall i | 0 <= i < |xs| :: SameIdentity(xs[i], ys[i])
    ensures SlotCount(xs, b) == SlotCount(ys, b)
    decreases |xs|
  {
    if xs != [] {
      assert SameIdentity(xs[0], ys[0]);
      forall i | 0 <= i < |xs[1..]|
        ensures SameIdentity(xs[1..][i], ys[1..][i])
      {
        assert SameIdentity(xs[i + 1], ys[i + 1]);
      }
      CountByIdentity(xs[1..], ys[1..], b);
    }
  }

  lemma {:induction false} FaithfulCount(a: Record, n: Record, referenced: set<string>, b: Record)
    requires Faithful(a, n, referenced)
    ensures SlotCount(a.children, b) == SlotCount(n.children, b)
  {
    forall i | 0 <= i < |n.children|
      ensures SameIdentity(a.children[i], n.children[i])
    {
      assert Matches(a.children[i], n.children[i], referenced, Everything);
    }
    CountByIdentity(a.children, n.children, b);
  }

  // ---------------------------------------------------------------------
  // Rivals for a slot
  // ---------------------------------------------------------------------

  /** Filling an unrepeated slot uses up every claim on it. */
  lemma {:induction false} LeftoverLeavesSlotAlone(overlays: seq<Record>, slots: seq<Record>, todo: seq<Record>,
                                                   b: Record)
    requires b in todo && SlotCount(slots, b) <= 1
    ensures forall o | o in Assign(overlays, slots, todo).leftover :: !SameSlot(o, b)
    decreases |todo|
  {
    var left := Unused(overlays, slots, todo[0]);
    if todo[0] == b {
      assert forall o | o in left :: !SameSlot(o, b);
    } else {
      LeftoverLeavesSlotAlone(left, slots, todo[1..], b);
    }
  }

  lemma {:induction false} SavedBy(s: Saver, nodes: seq<Record>, slots: seq<Record>, e: Record) returns (n: Record)
    requires e in EncodeAll(s, nodes, slots)
    ensures n in nodes && EncodeChild(s, n, slots) == Some(e)
    decreases |nodes|
  {
    if EncodeChild(s, nodes[0], slots) == Some(e) {
      return nodes[0];
    }
    n := SavedBy(s, nodes[1..], slots, e);
  }

  /** What is saved for a child and expanded without a slot claims none that the saved form does not claim. */
  lemma {:induction false} ExtraLeavesSlotAlone(s: Saver, n: Record, slots: seq<Record>, e: Record, b: Record)
    requires DeclId in n.meta && EncodeChild(s, n, slots) == Some(e)
    requires b in slots && !SameSlot(e, b)
    ensures !SameSlot(Expand(s.schema, e, None), b)
  {
    SavedClaimsOwnSlot(s, n, FindSlot(n, slots), MayOmit(n, slots), b);
    assert e.meta == SavedMeta(s.schema, n, FindSlot(n, slots), MayOmit(n, slots));
    assert Expand(s.schema, e, None).meta[DeclId] == n.meta[DeclId];
  }

  lemma {:induction false} ExtrasLeaveSlotAlone(s: Saver, nodes: seq<Record>, slots: seq<Record>, e: Record,
                                                extras: seq<Record>, b: Record)
    requires b in slots && e.children == EncodeAll(s, nodes, slots)
    requires forall n | n in nodes :: DeclId in n.meta
    requires forall o | o in extras :: o in e.children && !SameSlot(o, b)
    ensures forall r | r in ExpandExtras(s.schema, e, extras) :: !SameSlot(r, b)
    decreases |extras|
  {
    if extras != [] {
      var n := SavedBy(s, nodes, slots, extras[0]);
      ExtraLeavesSlotAlone(s, n, slots, extras[0], b);
      ExtrasLeaveSlotAlone(s, nodes, slots, e, extras[1..], b);
    }
  }

  /** However many children claim an unrepeated slot, exactly one child that claims it comes back. */
  lemma {:induction false} RivalsAreLost(s: Saver, node: Record, saved: Option<Record>, allow: bool,
                                         filled: Option<Record>, b: Record)
    requires DeclaresIds(s.schema) && !s.omits(node.meta) && Fits(s.schema, node, saved, allow, filled)
    requires forall n | n in node.children :: DeclId in n.meta
    requires b in SlotsIn(s.schema, node) && SlotCount(SlotsIn(s.schema, node), b) <= 1
    ensures SlotCount(Came(s, node, saved, allow, filled).children, b) == 1
  {
    var slots, saves := SlotsIn(s.schema, node), Encode(s, node, saved, allow);
    var k :| 0 <= k < |slots| && slots[k] == b;
    assert DeclId in s.schema(node.nodeType, node.role).children[k].meta;
    SlotCountsAMatch(slots, b, k);
    if saves.Some? {
      assert SlotsOf(s.schema, node, saved) == slots;
      FilledOnce(s, node.children, slots, saves.value, b);
      assert ExpansionBaseline(s.schema, saves.value, filled).children == slots;
    }
  }

  lemma {:induction false} SlotsAreFilledInOrder(schema: Schema, e: Record, slots: seq<Record>, b: Record)
    requires forall t | t in slots :: DeclId in t.meta
    ensures var front := ExpandedChildren(schema, e, slots)[..|slots|];
            SlotCount(front, b) == SlotCount(slots, b)
  {
    MergeIsDisciplined(schema, e, slots);
    var front := ExpandedChildren(schema, e, slots)[..|slots|];
    forall i | 0 <= i < |slots|
      ensures SameIdentity(front[i], slots[i])
    {
      assert slots[i] in slots && front[i] == ExpandedChildren(schema, e, slots)[i];
    }
    CountByIdentity(front, slots, b);
  }

  lemma {:induction false} FilledOnce(s: Saver, nodes: seq<Record>, slots: seq<Record>, e: Record, b: Record)
    requires b in slots && SlotCount(slots, b) == 1 && e.children == EncodeAll(s, nodes, slots)
    requires (forall n | n in nodes :: DeclId in n.meta) && (forall t | t in slots :: DeclId in t.meta)
    ensures SlotCount(ExpandedChildren(s.schema, e, slots), b) == 1
  {
    hide EncodeAll, SameSlot, SlotCount, Assign, Expand;
    var a, out := Assign(e.children, slots, slots), ExpandedChildren(s.schema, e, slots);
    SlotsAreFilledInOrder(s.schema, e, slots, b);
    LeftoverLeavesSlotAlone(e.children, slots, slots, b);
    ExtrasLeaveSlotAlone(s, nodes, slots, e, a.leftover, b);
    NobodyCounts(ExpandExtras(s.schema, e, a.leftover), b);
    SlotCountConcat(out[..|slots|], out[|slots|..], b);
    assert out[|slots|..] == ExpandExtras(s.schema, e, a.leftover);
    assert out == out[..|slots|] + out[|slots|..];
  }

  lemma {:induction false} RivalsClaim(nodes: seq<Record>, slots: seq<Record>) returns (b: Record)
    requires !Unrivalled(nodes, slots)
    ensures b in slots && SlotCount(slots, b) <= 1 && SlotCount(nodes, b) >= 2
  {
    var i, j :| 0 <= i < j < |nodes| && MayOmit(nodes[i], slots) && SameSlot(nodes[i], nodes[j]);
    b := FindSlot(nodes[i], slots).value;
    SlotCountsTwo(nodes, b, i, j);
  }

  /** Arranging keeps every claim. */
  lemma {:induction false} ArrangedClaims(schema: Schema, parent: Record, nodes: seq<Record>, todo: seq<Record>,
                                          b: Record)
    requires forall n | n in nodes :: n in parent.children
    ensures SlotCount(ArrangedAll(schema, parent, Layout(nodes, todo)), b) >= SlotCount(nodes, b)
    decreases |todo|
  {
    var spots := Layout(nodes, todo);
    if todo == [] {
      forall i | 0 <= i < |nodes|
        ensures SameIdentity(ArrangedAll(schema, parent, spots)[i], nodes[i])
      {
        ArrangedAt(schema, parent, spots, i);
      }
      CountByIdentity(ArrangedAll(schema, parent, spots), nodes, b);
    } else {
      var claimant := Claimant(nodes, todo[0]);
      var left := if claimant.Some? then Without(nodes, claimant.value) else nodes;
      assert spots[1..] == Layout(left, todo[1..]);
      ArrangedClaims(schema, parent, left, todo[1..], b);
      assert ArrangedAll(schema, parent, spots)[1..] == ArrangedAll(schema, parent, spots[1..]);
      if claimant.Some? {
        assert spots[0] == Taken(nodes[claimant.value], Some(todo[0]));
        CountWithout(nodes, claimant.value, b);
      }
    }
  }

  lemma {:induction false} CountWithout(nodes: seq<Record>, i: nat, b: Record)
    requires i < |nodes|
    ensures SlotCount(nodes, b) == SlotCount(Without(nodes, i), b) + (if SameSlot(nodes[i], b) then 1 else 0)
  {
    assert nodes == nodes[..i] + nodes[i..] && nodes[i..][1..] == nodes[i + 1..];
    SlotCountConcat(nodes[..i], nodes[i..], b);
    SlotCountConcat(nodes[..i], nodes[i + 1..], b);
  }

  // ---------------------------------------------------------------------
  // What the saver keeps comes back arranged
  // ---------------------------------------------------------------------

  lemma {:induction false} KeptLevel(s: Saver, node: Record, slots: seq<Record>)
    requires Proper(node) && !Holds(s.omits, node) && Unrivalled(node.children, slots)
    ensures Level(s, node.children, slots)
  {
    forall n | n in node.children
      ensures !s.omits(n.meta) && ShortName in n.meta
    {
      var i :| 0 <= i < |node.children| && node.children[i] == n;
      assert Proper(node.children[i]) && !Holds(s.omits, node.children[i]);
    }
  }

  ghost predicate SpotExpressible(schema: Schema, spot: Spot, slots: seq<Record>, part: Part) {
    spot.Taken? ==>
      Expressible(schema, spot.child, FindSlot(spot.child, slots), MayOmit(spot.child, slots), spot.slot, part)
  }

  /** If no two children claim one slot, the places of a tree without app data all come back, its data exactly if it is
      expressible, and its metadata likewise. If two claim one slot, not everything comes back. */
  lemma {:induction false} RestoredIsFaithful(s: Saver, node: Record, saved: Option<Record>, allow: bool,
                                              filled: Option<Record>, part: Part)
    requires ProperSchema(s.schema) && Proper(node) && !Holds(s.omits, node)
    requires Fits(s.schema, node, saved, allow, filled)
    ensures var came, arranged := Came(s, node, saved, allow, filled), Arranged(s.schema, node);
            && (NoRivals(s.schema, node) ==>
                  (Matches(came, arranged, s.referenced, part)
                   <==> Expressible(s.schema, node, saved, allow, filled, part)))
            && (Faithful(came, arranged, s.referenced) ==> NoRivals(s.schema, node))
    decreases node, 1
  {
    var slots := SlotsIn(s.schema, node);
    if Unrivalled(node.children, slots) {
      forall i | 0 <= i < |Layout(node.children, slots)|
        ensures SpotIsRestored(s, node, i, part)
      {
        SpotIsFaithful(s, node, i, part);
      }
      LevelIsFaithful(s, node, saved, allow, filled, part);
    } else {
      RivalsShow(s, node, saved, allow, filled);
    }
  }

  /** What comes back in one place is as good as the child laid out there allows. */
  ghost predicate SpotIsRestored(s: Saver, node: Record, i: nat, part: Part)
    requires i < |Layout(node.children, SlotsIn(s.schema, node))|
  {
    var slots := SlotsIn(s.schema, node);
    var spots := Layout(node.children, slots);
    var came, arranged := CameAt(s, spots[i], slots), ArrangedAll(s.schema, node, spots)[i];
    && (NoRivals(s.schema, node) ==>
          (Matches(came, arranged, s.referenced, part) <==> SpotExpressible(s.schema, spots[i], slots, part)))
    && (Matches(came, arranged, s.referenced, Everything) ==> (spots[i].Taken? ==> NoRivals(s.schema, spots[i].child)))
  }

  lemma {:induction false} LevelIsFaithful(s: Saver, node: Record, saved: Option<Record>, allow: bool,
                                           filled: Option<Record>, part: Part)
    requires ProperSchema(s.schema) && Proper(node) && !Holds(s.omits, node)
    requires Fits(s.schema, node, saved, allow, filled)
    requires Unrivalled(node.children, SlotsIn(s.schema, node))
    requires forall i | 0 <= i < |Layout(node.children, SlotsIn(s.schema, node))| :: SpotIsRestored(s, node, i, part)
    ensures var came, arranged := Came(s, node, saved, allow, filled), Arranged(s.schema, node);
            && (NoRivals(s.schema, node) ==>
                  (Matches(came, arranged, s.referenced, part)
                   <==> Expressible(s.schema, node, saved, allow, filled, part)))
            && (Faithful(came, arranged, s.referenced) ==> NoRivals(s.schema, node))
  {
    hide Came, CameAt, Layout, Fits, ProperSchema, Unrivalled, SlotsIn, SameSlot, Proper, Holds;
    hide MetaExpressible, DataExpressible;
    var slots, came, arranged := SlotsIn(s.schema, node), Came(s, node, saved, allow, filled), Arranged(s.schema, node);
    var spots := Layout(node.children, slots);
    OwnFieldsAndPlaces(s, node, saved, allow, filled);
    SpotsAreExpressible(s.schema, spots, slots, part);
    forall i | 0 <= i < |spots|
      ensures NoRivals(s.schema, node) ==>
                (Matches(came.children[i], arranged.children[i], s.referenced, part)
                 <==> SpotExpressible(s.schema, spots[i], slots, part))
      ensures Matches(came.children[i], arranged.children[i], s.referenced, Everything) ==>
                (spots[i].Taken? ==> NoRivals(s.schema, spots[i].child))
    {
      assert SpotIsRestored(s, node, i, part);
    }
    if Faithful(came, arranged, s.referenced) {
      SpotsWithoutRivals(s.schema, node);
    }
  }

  lemma {:induction false} RivalsShow(s: Saver, node: Record, saved: Option<Record>, allow: bool,
                                      filled: Option<Record>)
    requires ProperSchema(s.schema) && Proper(node) && !s.omits(node.meta) && Fits(s.schema, node, saved, allow, filled)
    requires !Unrivalled(node.children, SlotsIn(s.schema, node))
    ensures !Faithful(Came(s, node, saved, allow, filled), Arranged(s.schema, node), s.referenced)
  {
    var b := RivalsClaim(node.children, SlotsIn(s.schema, node));
    RivalsAreLost(s, node, saved, allow, filled, b);
    ArrangedClaims(s.schema, node, node.children, SlotsIn(s.schema, node), b);
    if Faithful(Came(s, node, saved, allow, filled), Arranged(s.schema, node), s.referenced) {
      FaithfulCount(Came(s, node, saved, allow, filled), Arranged(s.schema, node), s.referenced, b);
    }
  }

  lemma {:induction false} OwnFieldsAndPlaces(s: Saver, node: Record, saved: Option<Record>, allow: bool,
                                              filled: Option<Record>)
    requires ProperSchema(s.schema) && Proper(node) && !Holds(s.omits, node)
    requires Fits(s.schema, node, saved, allow, filled)
    requires Unrivalled(node.children, SlotsIn(s.schema, node))
    ensures var slots, came := SlotsIn(s.schema, node), Came(s, node, saved, allow, filled);
            && came.nodeType == node.nodeType && came.role == node.role
            && (came.meta == node.meta <==> MetaExpressible(s.schema, node, saved, allow, filled))
            && (came.data == node.data <==> DataExpressible(s.schema, node, saved, allow, filled))
            && came.children == CameAll(s, Layout(node.children, slots), slots)
            && (came.uuid == node.uuid || node.uuid !in s.referenced)
  {
    KeptLevel(s, node, SlotsIn(s.schema, node));
    Comes(s, node, saved, allow, filled);
    FieldsRestored(s.schema, node, saved, allow, filled);
  }

  lemma {:induction false} SpotsAreExpressible(schema: Schema, spots: seq<Spot>, slots: seq<Record>, part: Part)
    ensures (forall i | 0 <= i < |spots| :: SpotExpressible(schema, spots[i], slots, part))
            <==> forall spot | spot in spots && spot.Taken? ::
                   Expressible(schema, spot.child, FindSlot(spot.child, slots), MayOmit(spot.child, slots), spot.slot,
                               part)
  {
  }

  lemma {:induction false} SpotsWithoutRivals(schema: Schema, node: Record)
    requires Unrivalled(node.children, SlotsIn(schema, node))
    requires var spots := Layout(node.children, SlotsIn(schema, node));
             forall i | 0 <= i < |spots| && spots[i].Taken? :: NoRivals(schema, spots[i].child)
    ensures NoRivals(schema, node)
  {
    forall k | 0 <= k < |node.children|
      ensures NoRivals(schema, node.children[k])
    {
      var j := LaidOut(node.children, SlotsIn(schema, node), node.children[k]);
    }
  }

  lemma {:induction false} SpotIsFaithful(s: Saver, node: Record, i: nat, part: Part)
    requires ProperSchema(s.schema) && Proper(node) && !Holds(s.omits, node)
    requires Unrivalled(node.children, SlotsIn(s.schema, node))
    requires i < |Layout(node.children, SlotsIn(s.schema, node))|
    ensures SpotIsRestored(s, node, i, part)
    decreases node, 0
  {
    var slots := SlotsIn(s.schema, node);
    var spots := Layout(node.children, slots);
    ArrangedAt(s.schema, node, spots, i);
    assert spots[i] in spots;
    match spots[i]
    case Missing(default) =>
      MatchesItself(default, s.referenced, part);
    case Taken(child, slot) =>
      var k :| 0 <= k < |node.children| && node.children[k] == child;
      SpotFits(s.schema, node, spots[i]);
      RestoredIsFaithful(s, child, FindSlot(child, slots), MayOmit(child, slots), slot, part);
  }

  /** A node that is left out is, uuids apart, the declared default that stands for it, exactly if no two of its
      children claim one slot and its fields are expressible; and nobody refers to it. */
  lemma {:induction false} LeftOutIsDefault(s: Saver, node: Record, b: Record)
    requires ProperSchema(s.schema) && Proper(node) && !Holds(s.omits, node)
    requires Fits(s.schema, node, Some(b), true, Some(b)) && Encode(s, node, Some(b), true).None?
    ensures Faithful(b, Arranged(s.schema, node), s.referenced)
            <==> NoRivals(s.schema, node) && Expressible(s.schema, node, Some(b), true, Some(b), Everything)
    ensures node.uuid !in s.referenced
  {
    RestoredIsFaithful(s, node, Some(b), true, Some(b), Everything);
  }

  // ---------------------------------------------------------------------
  // What a tree that comes back must be like
  // ---------------------------------------------------------------------

  /** A node is left to another file if one of its metadata fields says so. */
  ghost predicate ToldBy(omits: Meta -> bool, tells: (MetaField, string) -> bool) {
    forall m: Meta :: omits(m) <==> exists f :: f in m && tells(f, m[f])
  }

  ghost predicate ByField(omits: Meta -> bool) {
    exists tells :: ToldBy(omits, tells)
  }

  lemma {:induction false} AppDataIsByField(tagged: string -> bool)
    ensures ByField(AppData(tagged))
  {
    var tells := (f: MetaField, v: string) => (f.DeclId? && v == PREFERENCES_DECL_ID) || (f.Tags? && tagged(v));
    forall m: Meta
      ensures AppData(tagged)(m) <==> exists f :: f in m && tells(f, m[f])
    {
      if AppData(tagged)(m) {
        var f := if DeclId in m && m[DeclId] == PREFERENCES_DECL_ID then DeclId else Tags;
        assert f in m && tells(f, m[f]);
      }
    }
    assert ToldBy(AppData(tagged), tells);
  }

  /** Fields of one node laid over a slot do not make it one that is left to another file. */
  lemma {:induction false} OverlaidIsKept(omits: Meta -> bool, base: Meta, overlay: Meta, meta: Meta)
    requires ByField(omits) && !omits(base) && !omits(meta)
    requires forall f | f in overlay :: f in meta && meta[f] == overlay[f]
    ensures !omits(MergeMeta(base, overlay))
  {
    var tells :| ToldBy(omits, tells);
    var merged := MergeMeta(base, overlay);
    forall f | f in merged
      ensures !tells(f, merged[f])
    {
      assert (f in base && base[f] == merged[f]) || (f in meta && meta[f] == merged[f]);
    }
  }

  lemma {:induction false} CountKept(omits: Meta -> bool, nodes: seq<Record>, b: Record)
    ensures SlotCount(nodes, b) >= SlotCount(PrunedAll(omits, nodes), b)
    decreases |nodes|
  {
    if nodes != [] {
      CountKept(omits, nodes[1..], b);
      var rest := PrunedAll(omits, nodes[1..]);
      if omits(nodes[0].meta) {
        assert PrunedAll(omits, nodes) == rest;
      } else {
        assert PrunedAll(omits, nodes)[1..] == rest;
      }
    }
  }

  /** If the first `k` nodes are kept, they are the first ones of what is kept. */
  lemma {:induction false} FrontIsKept(omits: Meta -> bool, nodes: seq<Record>, k: nat)
    requires k <= |nodes| && forall i | 0 <= i < k :: !omits(nodes[i].meta)
    ensures k <= |PrunedAll(omits, nodes)| <= |nodes|
    ensures forall i | 0 <= i < k :: PrunedAll(omits, nodes)[i] == Pruned(omits, nodes[i])
    ensures |PrunedAll(omits, nodes)| == |nodes| ==> forall i | 0 <= i < |nodes| :: !omits(nodes[i].meta)
    decreases |nodes|
  {
    if nodes != [] {
      var rest := nodes[1..];
      FrontIsKept(omits, rest, if k == 0 then 0 else k - 1);
      assert forall i | 1 <= i < |nodes| :: nodes[i] == rest[i - 1];
    }
  }

  /** The child that comes back for a declared slot claims it, and is not left to another file. */
  lemma {:induction false} SlotIsFilled(s: Saver, node: Record, i: nat)
    requires ProperSchema(s.schema) && DeclaresNone(s.omits, s.schema) && ByField(s.omits)
    requires i < |SlotsIn(s.schema, node)| && Level(s, node.children, SlotsIn(s.schema, node))
    requires forall n | n in node.children :: DeclId in n.meta
    ensures var slots := SlotsIn(s.schema, node);
            && i < |Layout(node.children, slots)|
            && var came := CameAt(s, Layout(node.children, slots)[i], slots);
               SameSlot(came, slots[i]) && !s.omits(came.meta)
  {
    var slots := SlotsIn(s.schema, node);
    LaidOutAt(node.children, slots, i);
    assert !s.omits(s.schema(node.nodeType, node.role).children[i].meta);
    assert DeclId in s.schema(node.nodeType, node.role).children[i].meta;
    match Layout(node.children, slots)[i]
    case Missing(default) =>
    case Taken(child, _) =>
      assert Layout(node.children, slots)[i] in Layout(node.children, slots);
      var meta := SavedMeta(s.schema, child, FindSlot(child, slots), MayOmit(child, slots));
      OverlaidIsKept(s.omits, slots[i].meta, meta, child.meta);
  }

  lemma {:induction false} KeptHaveNoRivals(s: Saver, node: Record, saved: Option<Record>, allow: bool,
                                            filled: Option<Record>)
    requires ProperSchema(s.schema) && !s.omits(node.meta) && Proper(Pruned(s.omits, node))
    requires Fits(s.schema, node, saved, allow, filled)
    requires Faithful(Came(s, Pruned(s.omits, node), saved, allow, filled), node, s.referenced)
    ensures Unrivalled(PrunedAll(s.omits, node.children), SlotsIn(s.schema, node))
  {
    var kept, slots := Pruned(s.omits, node), SlotsIn(s.schema, node);
    if !Unrivalled(kept.children, slots) {
      var b := RivalsClaim(kept.children, slots);
      RivalsAreLost(s, kept, saved, allow, filled, b);
      CountKept(s.omits, node.children, b);
      FaithfulCount(Came(s, kept, saved, allow, filled), node, s.referenced, b);
    }
  }

  /** A tree that comes back as it was holds no app data, has its declared children in order, and no two of its children
      claim one slot. */
  lemma {:induction false} OnlyOrderlyTreesComeBack(s: Saver, node: Record, saved: Option<Record>, allow: bool,
                                                    filled: Option<Record>)
    requires ProperSchema(s.schema) && DeclaresNone(s.omits, s.schema) && ByField(s.omits)
    requires !s.omits(node.meta) && Proper(Pruned(s.omits, node)) && Fits(s.schema, node, saved, allow, filled)
    requires Faithful(Came(s, Pruned(s.omits, node), saved, allow, filled), node, s.referenced)
    ensures !Holds(s.omits, node) && InOrder(s.schema, node) && NoRivals(s.schema, node)
    decreases node
  {
    var kept, slots, nodes := Pruned(s.omits, node), SlotsIn(s.schema, node), node.children;
    var came, spots := Came(s, kept, saved, allow, filled), Layout(kept.children, slots);
    PrunedHoldsNone(s.omits, node);
    KeptHaveNoRivals(s, node, saved, allow, filled);
    KeptLevel(s, kept, slots);
    Comes(s, kept, saved, allow, filled);
    AllAreKept(s, node, came);
    forall i | 0 <= i < |nodes|
      ensures !Holds(s.omits, nodes[i]) && InOrder(s.schema, nodes[i]) && NoRivals(s.schema, nodes[i])
    {
      KeptChildComesBack(s, node, came, i);
      OnlyOrderlyTreesComeBack(s, nodes[i], FindSlot(kept.children[i], slots), MayOmit(kept.children[i], slots),
                               spots[i].slot);
    }
    StillUnrivalledBefore(s.omits, nodes, slots);
  }

  lemma {:induction false} KeptChildComesBack(s: Saver, node: Record, came: Record, i: nat)
    requires ProperSchema(s.schema) && Proper(Pruned(s.omits, node)) && Faithful(came, node, s.referenced)
    requires var kept, slots := PrunedAll(s.omits, node.children), SlotsIn(s.schema, node);
             && i < |node.children| == |kept|
             && ChildrenInOrder(kept, slots) && Unrivalled(kept, slots)
             && kept[i] == Pruned(s.omits, node.children[i])
             && came.children == CameAll(s, Layout(kept, slots), slots)
    ensures var child, slots := Pruned(s.omits, node.children[i]), SlotsIn(s.schema, node);
            var spots := Layout(PrunedAll(s.omits, node.children), slots);
            var saved, allow := FindSlot(child, slots), MayOmit(child, slots);
            && i < |spots| && spots[i].Taken?
            && Proper(child) && Fits(s.schema, node.children[i], saved, allow, spots[i].slot)
            && Faithful(Came(s, child, saved, allow, spots[i].slot), node.children[i], s.referenced)
  {
    var kept, slots := Pruned(s.omits, node), SlotsIn(s.schema, node);
    LaidOutInOrder(kept.children, slots, i);
    var spots := Layout(kept.children, slots);
    assert spots[i] in spots;
    SpotFits(s.schema, kept, spots[i]);
    assert Matches(came.children[i], node.children[i], s.referenced, Everything);
  }

  lemma {:induction false} StillUnrivalledBefore(omits: Meta -> bool, nodes: seq<Record>, slots: seq<Record>)
    requires |PrunedAll(omits, nodes)| == |nodes| && Unrivalled(PrunedAll(omits, nodes), slots)
    requires forall i | 0 <= i < |nodes| :: PrunedAll(omits, nodes)[i] == Pruned(omits, nodes[i])
    ensures Unrivalled(nodes, slots)
  {
    var kept := PrunedAll(omits, nodes);
    forall i, j | 0 <= i < j < |nodes| && MayOmit(nodes[i], slots)
      ensures !SameSlot(nodes[i], nodes[j])
    {
      SlotByIdentity(nodes[i], kept[i], slots);
      assert !SameSlot(kept[i], kept[j]);
    }
  }

  /** What comes back for the declared slots is claimed by the first children, and none of those is left out. */
  lemma {:induction false} FrontComesBack(s: Saver, node: Record, came: Record)
    requires ProperSchema(s.schema) && DeclaresNone(s.omits, s.schema) && ByField(s.omits)
    requires Proper(Pruned(s.omits, node)) && Faithful(came, node, s.referenced)
    requires var kept, slots := Pruned(s.omits, node), SlotsIn(s.schema, node);
             Level(s, kept.children, slots) && came.children == CameAll(s, Layout(kept.children, slots), slots)
    ensures ChildrenInOrder(node.children, SlotsIn(s.schema, node))
    ensures forall i | 0 <= i < |SlotsIn(s.schema, node)| :: !s.omits(node.children[i].meta)
  {
    hide Came, Encode, Layout, SavedMeta, ByField, ProperSchema, DeclaresNone;
    var kept, slots, nodes := Pruned(s.omits, node), SlotsIn(s.schema, node), node.children;
    forall i | 0 <= i < |slots|
      ensures i < |nodes| && SameSlot(nodes[i], slots[i]) && !s.omits(nodes[i].meta)
    {
      SlotIsFilled(s, kept, i);
      assert Matches(came.children[i], nodes[i], s.referenced, Everything);
    }
    if slots != [] {
      SlotIsFilled(s, kept, |slots| - 1);
    }
  }

  lemma {:induction false} AllAreKept(s: Saver, node: Record, came: Record)
    requires ProperSchema(s.schema) && DeclaresNone(s.omits, s.schema) && ByField(s.omits)
    requires Proper(Pruned(s.omits, node)) && Faithful(came, node, s.referenced)
    requires var kept, slots := Pruned(s.omits, node), SlotsIn(s.schema, node);
             Level(s, kept.children, slots) && came.children == CameAll(s, Layout(kept.children, slots), slots)
    ensures ChildrenInOrder(node.children, SlotsIn(s.schema, node))
    ensures ChildrenInOrder(PrunedAll(s.omits, node.children), SlotsIn(s.schema, node))
    ensures |PrunedAll(s.omits, node.children)| == |node.children|
    ensures forall i | 0 <= i < |node.children| ::
              !s.omits(node.children[i].meta)
              && PrunedAll(s.omits, node.children)[i] == Pruned(s.omits, node.children[i])
  {
    hide Came, Encode, Layout, SavedMeta, ByField, ProperSchema, DeclaresNone, PrunedAll;
    var kept, slots, nodes := Pruned(s.omits, node), SlotsIn(s.schema, node), node.children;
    FrontComesBack(s, node, came);
    FrontIsKept(s.omits, nodes, |slots|);
    LaidOutInOrder(kept.children, slots, 0);
    FrontIsKept(s.omits, nodes, |nodes|);
  }

  // ---------------------------------------------------------------------
  // Whole projects
  // ---------------------------------------------------------------------

  /** The default a whole project is saved against: the root's own fields over its declared children. */
  function StructuralRoot(schema: Schema, root: Record): Record {
    root.(children := schema(root.nodeType, root.role).children)
  }

  /** What is saved for a whole tree. */
  function SavedTree(s: Saver, root: Record): Option<Record> {
    Encode(s, root, Some(StructuralRoot(s.schema, root)), false)
  }

  function Loaded(schema: Schema, saved: Record): Record {
    Expand(schema, saved, None)
  }

  /** The trees that can be saved: the root itself is not left to
      another file, and what is kept is made of live nodes. */
  ghost predicate Savable(s: Saver, root: Record) {
    && ProperSchema(s.schema)
    && !s.omits(root.meta)
    && Proper(Pruned(s.omits, root))
  }

  /** The saved form of every node of a whole tree can express this part of it. */
  ghost predicate AllExpressible(schema: Schema, root: Record, part: Part) {
    Expressible(schema, root, Some(StructuralRoot(schema, root)), false, None, part)
  }

  /** Saving and loading a tree restores what the saver keeps of it, arranged, exactly when no two of the kept
      children claim one slot and every kept field is expressible. If no two claim one slot, every kept node has its
      place in the loaded tree in any case, every kept uuid that is referred to survives, and so does all data if it
      is expressible. */
  lemma {:induction false} ProjectRoundTrip(s: Saver, root: Record, part: Part)
    requires Savable(s, root)
    ensures var saved, kept := SavedTree(s, root), Pruned(s.omits, root);
            && saved.Some?
            && var loaded := Loaded(s.schema, saved.value);
            && loaded.uuid == root.uuid
            && (Faithful(loaded, Arranged(s.schema, kept), s.referenced)
                <==> NoRivals(s.schema, kept) && AllExpressible(s.schema, kept, Everything))
            && (NoRivals(s.schema, kept) ==>
                  (Matches(loaded, Arranged(s.schema, kept), s.referenced, part)
                   <==> AllExpressible(s.schema, kept, part)))
  {
    var structural := Some(StructuralRoot(s.schema, root));
    PrunedHoldsNone(s.omits, root);
    OmittingIsPruning(s, root, structural, false);
    RestoredIsFaithful(s, Pruned(s.omits, root), structural, false, None, part);
    RestoredIsFaithful(s, Pruned(s.omits, root), structural, false, None, Everything);
  }

  /** Places ask nothing of the saved form. */
  lemma {:induction false} PlacesAreExpressible(schema: Schema, node: Record, saved: Option<Record>, allow: bool,
                                                filled: Option<Record>)
    ensures Expressible(schema, node, saved, allow, filled, Places)
    decreases node
  {
    var slots := SlotsIn(schema, node);
    forall spot | spot in Layout(node.children, slots) && spot.Taken?
      ensures Expressible(schema, spot.child, FindSlot(spot.child, slots), MayOmit(spot.child, slots), spot.slot,
                          Places)
    {
      PlacesAreExpressible(schema, spot.child, FindSlot(spot.child, slots), MayOmit(spot.child, slots), spot.slot);
    }
  }

  /** Saving and loading restores a tree exactly when it holds no app data, its declared children are in order, no two
      children claim one slot, and every field is expressible. Declared children have ids and are no app data. */
  lemma {:induction false} WholeTreeRoundTrip(s: Saver, root: Record)
    requires Savable(s, root) && DeclaresNone(s.omits, s.schema) && ByField(s.omits)
    ensures SavedTree(s, root).Some?
    ensures Faithful(Loaded(s.schema, SavedTree(s, root).value), root, s.referenced)
            <==> && !Holds(s.omits, root)
                 && InOrder(s.schema, root)
                 && NoRivals(s.schema, root)
                 && AllExpressible(s.schema, root, Everything)
  {
    var structural := Some(StructuralRoot(s.schema, root));
    ProjectRoundTrip(s, root, Everything);
    OmittingIsPruning(s, root, structural, false);
    if Faithful(Loaded(s.schema, SavedTree(s, root).value), root, s.referenced) {
      OnlyOrderlyTreesComeBack(s, root, structural, false, None);
    }
    if !Holds(s.omits, root) && InOrder(s.schema, root) {
      NothingPruned(s.omits, root);
      ArrangedInOrder(s.schema, root);
    }
  }

  lemma {:induction false} NothingIsOmitted(omits: Meta -> bool, root: Record)
    requires forall m: Meta :: !omits(m)
    ensures !Holds(omits, root)
    decreases root
  {
    forall i | 0 <= i < |root.children|
      ensures !Holds(omits, root.children[i])
    {
      NothingIsOmitted(omits, root.children[i]);
    }
  }

  /** A subtree file restores exactly the trees whose declared children are in order and without rivals and whose fields
      are expressible. */
  lemma {:induction false} SubtreeRoundTrip(schema: Schema, referenced: set<string>, root: Record)
    requires ProperSchema(schema) && Proper(root)
    ensures var saved := SavedTree(SubtreeSaver(schema, referenced), root);
            && saved.Some?
            && (Faithful(Loaded(schema, saved.value), root, referenced)
                <==> InOrder(schema, root) && NoRivals(schema, root) && AllExpressible(schema, root, Everything))
  {
    var s := SubtreeSaver(schema, referenced);
    NothingIsOmitted(s.omits, root);
    NothingPruned(s.omits, root);
    assert ToldBy(s.omits, (f, v) => false);
    WholeTreeRoundTrip(s, root);
  }

  /** A project file, where the preferences and whatever is tagged as app data are left out. */
  lemma {:induction false} ProjectFileRoundTrip(schema: Schema, referenced: set<string>, tagged: string -> bool,
                                                root: Record)
    requires Savable(ProjectSaver(schema, referenced, tagged), root) && DeclaresNone(AppData(tagged), schema)
    ensures var saved := SavedTree(ProjectSaver(schema, referenced, tagged), root);
            && saved.Some?
            && (Faithful(Loaded(schema, saved.value), root, referenced)
                <==> && !Holds(AppData(tagged), root)
                     && InOrder(schema, root)
                     && NoRivals(schema, root)
                     && AllExpressible(schema, root, Everything))
  {
    AppDataIsByField(tagged);
    WholeTreeRoundTrip(ProjectSaver(schema, referenced, tagged), root);
  }

  // ---------------------------------------------------------------------
  // Trees that do not come back
  // ---------------------------------------------------------------------

  /** A root comes back with the description of its type's default, whatever its own. */
  lemma {:induction false} RootDescriptionIsLost(s: Saver, root: Record)
    requires !s.omits(root.meta)
    ensures SavedTree(s, root).Some?
    ensures var loaded, default := Loaded(s.schema, SavedTree(s, root).value), s.schema(root.nodeType, root.role);
            && (Description in loaded.meta <==> Description in default.meta)
            && (Description in loaded.meta ==> loaded.meta[Description] == default.meta[Description])
  {
  }

  /** A root with a description, and nothing else about it: in order, without app data or rivals, and not restored. */
  lemma {:induction false} DescribedRootIsNotRestored(tagged: string -> bool)
    ensures var schema: Schema := (t, r) => Record("", t, r, map[], None, []);
            var s := ProjectSaver(schema, {}, tagged);
            var root := Record("r", "root", ItemRoot, map[DeclId := "root", ShortName := "root", Description := "d"],
                               None, []);
            && Savable(s, root)
            && DeclaresNone(s.omits, schema) && ByField(s.omits)
            && !Holds(s.omits, root) && InOrder(schema, root) && NoRivals(schema, root)
            && !AllExpressible(schema, root, Everything)
            && SavedTree(s, root).Some?
            && !Faithful(Loaded(schema, SavedTree(s, root).value), root, {})
  {
    var schema: Schema := (t, r) => Record("", t, r, map[], None, []);
    var s := ProjectSaver(schema, {}, tagged);
    var root := Record("r", "root", ItemRoot, map[DeclId := "root", ShortName := "root", Description := "d"], None, []);
    hide Encode, Expand, ByField;
    AppDataIsByField(tagged);
    assert "root"[0] == 'r' && PREFERENCES_DECL_ID[0] == 'p';
    RootDescriptionIsLost(s, root);
    NothingPruned(s.omits, root);
    WholeTreeRoundTrip(s, root);
  }
}
