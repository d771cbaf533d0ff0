/** The incremental node store follows ordered-tree editing: every
    edit and the graph operations that describe it commute. */
module TreeEditing {
  import opened UiTypes
  import opened StoreSemantics
  import opened OrderedTrees

  /** A structural or payload edit of the node tree. A child is addressed by its parent and its position. */
  datatype Edit =
    | Insert(into: NodeId, at: nat, subtree: Tree)
    | Remove(from: NodeId, index: nat)
    | Move(source: NodeId, position: nat, target: NodeId, destination: nat)
    | PatchNodeMeta(node: NodeId, metaPatch: NodeMetaPatch)
    | PatchNodeParam(paramNode: NodeId, paramPatch: ParamPatch)

  /** The child at `index` of node `p`. */
  function ChildAt(t: Tree, p: NodeId, index: nat): Tree
    requires p in Ids(t) && index < |Find(t, p).kids|
  {
    Find(t, p).kids[index]
  }

  function Detach(t: Tree, p: NodeId, index: nat): Tree
    requires p in Ids(t) && index < |Find(t, p).kids|
  {
    var node := Find(t, p);
    Replace(t, p, node.dto, node.kids[..index] + node.kids[index + 1..])
  }

  function Attach(t: Tree, p: NodeId, index: nat, x: Tree): Tree
    requires p in Ids(t) && index <= |Find(t, p).kids|
  {
    var node := Find(t, p);
    Replace(t, p, node.dto, node.kids[..index] + [x] + node.kids[index..])
  }

  function Rewrite(t: Tree, p: NodeId, dto: NodeDto): Tree
    requires p in Ids(t)
  {
    Replace(t, p, dto, Find(t, p).kids)
  }

  /** What the engine checks before it applies an edit. */
  predicate Allowed(t: Tree, e: Edit) {
    match e
    case Insert(p, i, x) => p in Ids(t) && i <= |Find(t, p).kids| && WellFormed(x) && Ids(x) !! Ids(t)
    case Remove(p, i) => p in Ids(t) && i < |Find(t, p).kids|
    case Move(p, i, q, j) =>
      && p in Ids(t)
      && i < |Find(t, p).kids|
      && q in Ids(t)
      && q !in Ids(ChildAt(t, p, i))
      && q in Ids(Detach(t, p, i))
      && j <= |Find(Detach(t, p, i), q).kids|
    case PatchNodeMeta(p, _) => p in Ids(t)
    case PatchNodeParam(p, _) => p in Ids(t) && Find(t, p).dto.data.Parameter?
  }

  function Edited(t: Tree, e: Edit): Tree
    requires Allowed(t, e)
  {
    match e
    case Insert(p, i, x) => Attach(t, p, i, x)
    case Remove(p, i) => Detach(t, p, i)
    case Move(p, i, q, j) => Attach(Detach(t, p, i), q, j, ChildAt(t, p, i))
    case PatchNodeMeta(p, patch) =>
      var dto := Find(t, p).dto;
      Rewrite(t, p, dto.(meta := PatchMeta(dto.meta, patch)))
    case PatchNodeParam(p, patch) =>
      var dto := Find(t, p).dto;
      Rewrite(t, p, dto.(data := Parameter(PatchParam(dto.data.param, patch))))
  }

  /** The direct child order of `p` as a patch, when the node is live. */
  function ChildrenOrderPatch(t: Tree, p: NodeId): Option<ChildrenOrder> {
    if p in Ids(t) then Some(ChildrenOrder(p, RootIds(Find(t, p).kids))) else None
  }

  const SUBTREE_COMPACT_THRESHOLD := 8

  function CreateOps(nodes: seq<NodeDto>, parents: NodeId -> Option<NodeId>): seq<GraphOp> {
    if nodes == [] then []
    else CreateOps(nodes[..|nodes| - 1], parents)
         + [NodeCreatedOp(nodes[|nodes| - 1], parents(nodes[|nodes| - 1].nodeId))]
  }

  /** The graph operations the engine publishes for an edit, computed from the edited tree. */
  function Describe(t: Tree, e: Edit, parents: NodeId -> Option<NodeId>): seq<GraphOp>
    requires Allowed(t, e)
  {
    var after := Edited(t, e);
    match e
    case Insert(p, _, x) =>
      var nodes := Preorder(x);
      var order := if p in Ids(after) then RootIds(Find(after, p).kids) else [];
      if |nodes| > SUBTREE_COMPACT_THRESHOLD then [SubtreeInserted(x.Id(), p, nodes, order)]
      else CreateOps(nodes, parents) + (if order == [] then [] else [ChildrenReordered(ChildrenOrder(p, order))])
    case Remove(p, i) =>
      var x := ChildAt(t, p, i);
      [SubtreeRemoved(x.Id(), NodeIds(Preorder(x)), ChildrenOrderPatch(after, p))]
    case Move(p, i, q, _) =>
      var x := ChildAt(t, p, i);
      if p == q then
        (if q in Ids(after) then [ChildrenReordered(ChildrenOrder(q, RootIds(Find(after, q).kids)))] else [])
      else [NodeMoved(x.Id(), Some(p), Some(q), ChildrenOrderPatch(after, p), ChildrenOrderPatch(after, q))]
    case PatchNodeMeta(p, patch) => [NodeMetaPatched(p, patch)]
    case PatchNodeParam(p, patch) => [ParamPatched(p, p, patch)]
  }

  function NodeIds(nodes: seq<NodeDto>): (ids: seq<NodeId>)
    ensures |ids| == |nodes| && forall i | 0 <= i < |nodes| :: ids[i] == nodes[i].nodeId
  {
    seq(|nodes|, i requires 0 <= i < |nodes| => nodes[i].nodeId)
  }

  // ---------------------------------------------------------------------
  // Depth-first listings against the flat store
  // ---------------------------------------------------------------------

  lemma {:induction false} InsertNodesConcat(s: Store, a: seq<NodeDto>, b: seq<NodeDto>)
    ensures InsertNodes(s, a + b) == InsertNodes(InsertNodes(s, a), b)
    decreases |b|
  {
    if b == [] {
      assert a + b == a;
    } else {
      assert (a + b)[..|a + b| - 1] == a + b[..|b| - 1];
      InsertNodesConcat(s, a, b[..|b| - 1]);
    }
  }

  lemma {:induction false} InsertOne(s: Store, node: NodeDto)
    ensures InsertNodes(s, [node]) == s[node.nodeId := node]
  {
    assert [node][..0] == [];
  }

  /** The depth-first listing of a tree inserts its flat store. */
  lemma {:induction false} InsertPreorder(s: Store, t: Tree)
    requires WellFormed(t)
    ensures InsertNodes(s, Preorder(t)) == s + Flatten(t)
    decreases t, 0
  {
    var root := t.Project();
    InsertNodesConcat(s, [root], PreorderForest(t.kids));
    InsertOne(s, root);
    InsertPreorderForest(s[t.Id() := root], t.kids);
    assert s[t.Id() := root] + FlattenForest(t.kids) == s + Flatten(t);
  }

  lemma {:induction false} InsertPreorderForest(s: Store, forest: seq<Tree>)
    requires WellFormedForest(forest)
    ensures InsertNodes(s, PreorderForest(forest)) == s + FlattenForest(forest)
    decreases forest, 0
  {
    if forest == [] {
    } else {
      var head, rest := forest[0], forest[1..];
      InsertPreorder(s, head);
      InsertPreorderForest(s + Flatten(head), rest);
      InsertNodesConcat(s, Preorder(head), PreorderForest(rest));
      PlusInEitherOrder(s, Flatten(head), FlattenForest(rest));
    }
  }

  lemma {:induction false} PlusInEitherOrder(s: Store, a: Store, b: Store)
    requires a.Keys !! b.Keys
    ensures (s + a) + b == s + (b + a)
  {
  }

  function IdSet(nodes: seq<NodeDto>): set<NodeId> {
    set id | id in NodeIds(nodes)
  }

  lemma {:induction false} IdSetConcat(a: seq<NodeDto>, b: seq<NodeDto>)
    ensures IdSet(a + b) == IdSet(a) + IdSet(b)
  {
    assert NodeIds(a + b) == NodeIds(a) + NodeIds(b);
  }

  lemma {:induction false} PreorderIdSet(t: Tree)
    ensures IdSet(Preorder(t)) == Ids(t)
    decreases t, 0
  {
    IdSetConcat([t.Project()], PreorderForest(t.kids));
    assert NodeIds([t.Project()]) == [t.Id()];
    PreorderForestIdSet(t.kids);
  }

  lemma {:induction false} PreorderForestIdSet(forest: seq<Tree>)
    ensures IdSet(PreorderForest(forest)) == ForestIds(forest)
    decreases forest, 0
  {
    if forest == [] {
    } else {
      IdSetConcat(Preorder(forest[0]), PreorderForest(forest[1..]));
      PreorderIdSet(forest[0]);
      PreorderForestIdSet(forest[1..]);
    }
  }

  lemma {:induction false} CreateOpsInsert(s: Store, nodes: seq<NodeDto>, parents: NodeId -> Option<NodeId>)
    ensures ApplyOps(s, CreateOps(nodes, parents)) == InsertNodes(s, nodes)
    decreases |nodes|
  {
    if nodes == [] {
    } else {
      var front, last := nodes[..|nodes| - 1], nodes[|nodes| - 1];
      CreateOpsInsert(s, front, parents);
      var op := NodeCreatedOp(last, parents(last.nodeId));
      ApplyOpsConcat(s, CreateOps(front, parents), [op]);
      ApplyOneOp(InsertNodes(s, front), op);
    }
  }

  // ---------------------------------------------------------------------
  // One edit
  // ---------------------------------------------------------------------

  lemma {:induction false} FlattenAt(t: Tree, p: NodeId)
    requires WellFormed(t) && p in Ids(t)
    ensures Flatten(t)[p] == Find(t, p).Project()
    ensures ForestIds(Find(t, p).kids) <= Ids(t)
    ensures forall k | k in ForestIds(Find(t, p).kids) :: Flatten(t)[k] == FlattenForest(Find(t, p).kids)[k]
  {
    FindFlattens(t, p);
  }

  lemma {:induction false} PartExtended(s: Store, inner: Store, more: Store, p: NodeId, node: NodeDto)
    requires inner.Keys <= s.Keys && more.Keys !! s.Keys
    requires forall k | k in inner :: s[k] == inner[k]
    ensures Patched(s, inner.Keys, inner + more, p, node) == (s + more)[p := node]
  {
  }

  lemma {:induction false} PartOfSetDropped(all: set<NodeId>, inner: set<NodeId>, rest: set<NodeId>, gone: set<NodeId>)
    requires inner == rest + gone && rest !! gone && inner <= all
    ensures (all - inner) + rest == all - gone
    ensures rest !! (all - inner)
  {
  }

  lemma {:induction false} HoleShape(t: Tree, p: NodeId)
    requires WellFormed(t) && p in Ids(t)
    ensures WellFormedForest(Find(t, p).kids) && ForestIds(Find(t, p).kids) <= Ids(t) - {p}
  {
  }

  lemma {:induction false} DetachShape(t: Tree, p: NodeId, index: nat)
    requires WellFormed(t) && p in Ids(t) && index < |Find(t, p).kids|
    ensures var kids := Find(t, p).kids;
            Fits(Ids(t), Find(t, p), Find(t, p).dto, kids[..index] + kids[index + 1..])
    ensures WellFormed(Detach(t, p, index)) && Detach(t, p, index).Id() == t.Id()
    ensures Ids(Detach(t, p, index)) == Ids(t) - Ids(ChildAt(t, p, index))
    ensures WellFormed(ChildAt(t, p, index)) && Ids(ChildAt(t, p, index)) <= ForestIds(Find(t, p).kids) <= Ids(t) - {p}
  {
    var node := Find(t, p);
    var rest := node.kids[..index] + node.kids[index + 1..];
    HoleShape(t, p);
    ForestAround(node.kids, index);
    PartOfSetDropped(Ids(t), ForestIds(node.kids), ForestIds(rest), Ids(node.kids[index]));
    ReplaceFlattens(t, p, node.dto, rest);
  }

  lemma {:induction false} DetachFlattens(t: Tree, p: NodeId, index: nat)
    requires WellFormed(t) && p in Ids(t) && index < |Find(t, p).kids|
    ensures Ids(ChildAt(t, p, index)) <= Ids(t) - {p}
    ensures forall k | k in Ids(ChildAt(t, p, index)) :: Flatten(t)[k] == Flatten(ChildAt(t, p, index))[k]
    ensures var kids := Find(t, p).kids;
            Flatten(Detach(t, p, index))
            == SetChildren(Flatten(t) - Ids(kids[index]), p, RootIds(kids[..index] + kids[index + 1..]))
  {
    var node := Find(t, p);
    var kids, x := node.kids, node.kids[index];
    var rest := kids[..index] + kids[index + 1..];
    DetachShape(t, p, index);
    FlattenAt(t, p);
    assert FlattenForest(rest) == FlattenForest(kids) - Ids(x)
           && forall k | k in Ids(x) :: FlattenForest(kids)[k] == Flatten(x)[k] by {
      ForestAround(kids, index);
    }
    ReplaceFlattens(t, p, node.dto, rest);
    assert Tree(node.dto, rest).Project() == Flatten(t)[p].(children := RootIds(rest));
  }

  lemma {:induction false} AttachFlattens(t: Tree, p: NodeId, index: nat, x: Tree)
    requires WellFormed(t) && p in Ids(t) && index <= |Find(t, p).kids| && WellFormed(x) && Ids(x) !! Ids(t)
    ensures WellFormed(Attach(t, p, index, x)) && Attach(t, p, index, x).Id() == t.Id()
    ensures Ids(Attach(t, p, index, x)) == Ids(t) + Ids(x)
    ensures var kids := Find(t, p).kids;
            Flatten(Attach(t, p, index, x))
            == SetChildren(Flatten(t) + Flatten(x), p, RootIds(kids[..index] + [x] + kids[index..]))
  {
    var node := Find(t, p);
    var kids := node.kids;
    var wide := kids[..index] + [x] + kids[index..];
    FlattenAt(t, p);
    ForestWith(kids, index, x);
    assert Fits(Ids(t), node, node.dto, wide);
    ReplaceFlattens(t, p, node.dto, wide);
    PartExtended(Flatten(t), FlattenForest(kids), Flatten(x), p, Tree(node.dto, wide).Project());
    assert Tree(node.dto, wide).Project() == Flatten(t)[p].(children := RootIds(wide));
  }

  lemma {:induction false} RewriteFlattens(t: Tree, p: NodeId, dto: NodeDto)
    requires WellFormed(t) && p in Ids(t) && dto.nodeId == p
    ensures WellFormed(Rewrite(t, p, dto)) && Rewrite(t, p, dto).Id() == t.Id()
    ensures Ids(Rewrite(t, p, dto)) == Ids(t)
    ensures Flatten(Rewrite(t, p, dto)) == Flatten(t)[p := dto.(children := Flatten(t)[p].children)]
  {
    FlattenAt(t, p);
    ReplaceFlattens(t, p, dto, Find(t, p).kids);
  }

  /** The published child order of a live node is the one the flat store carries. */
  lemma {:induction false} OrderOfFlat(t: Tree, p: NodeId)
    requires WellFormed(t) && p in Ids(t)
    ensures RootIds(Find(t, p).kids) == Flatten(t)[p].children
  {
    FlattenAt(t, p);
  }

  lemma {:induction false} InsertCommutes(t: Tree, p: NodeId, i: nat, x: Tree, parents: NodeId -> Option<NodeId>)
    requires WellFormed(t) && Allowed(t, Insert(p, i, x))
    ensures WellFormed(Edited(t, Insert(p, i, x)))
    ensures ApplyOps(Flatten(t), Describe(t, Insert(p, i, x), parents)) == Flatten(Edited(t, Insert(p, i, x)))
  {
    var after := Edited(t, Insert(p, i, x));
    AttachFlattens(t, p, i, x);
    OrderOfFlat(after, p);
    var nodes, order := Preorder(x), RootIds(Find(after, p).kids);
    var kids := Find(t, p).kids;
    InsertPreorder(Flatten(t), x);
    assert order == RootIds(kids[..i] + [x] + kids[i..]);
    assert |order| > 0;
    if |nodes| > SUBTREE_COMPACT_THRESHOLD {
      ApplyOneOp(Flatten(t), SubtreeInserted(x.Id(), p, nodes, order));
    } else {
      var last := ChildrenReordered(ChildrenOrder(p, order));
      CreateOpsInsert(Flatten(t), nodes, parents);
      ApplyOpsConcat(Flatten(t), CreateOps(nodes, parents), [last]);
      ApplyOneOp(InsertNodes(Flatten(t), nodes), last);
    }
  }

  lemma {:induction false} CreatedUnderParents(nodes: seq<NodeDto>, parents: NodeId -> Option<NodeId>)
    ensures |CreateOps(nodes, parents)| == |nodes|
    ensures forall k | 0 <= k < |nodes| ::
              CreateOps(nodes, parents)[k] == NodeCreatedOp(nodes[k], parents(nodes[k].nodeId))
    decreases |nodes|
  {
    if nodes != [] {
      CreatedUnderParents(nodes[..|nodes| - 1], parents);
    }
  }

  /** What is published for an edit names the nodes it is about, also where only the choice of the clients that are told
      depends on them. Up to eight inserted nodes are published one by one. */
  lemma {:induction false} OpsNameTheirNodes(t: Tree, e: Edit, parents: NodeId -> Option<NodeId>)
    requires Allowed(t, e)
    ensures var ops := Describe(t, e, parents);
            match e
            case Insert(p, _, x) =>
              if |Preorder(x)| > 8 then
                |ops| == 1 && ops[0].SubtreeInserted? && ops[0].insertedRoot == x.Id() && ops[0].under == p
              else
                && |Preorder(x)| <= |ops| <= |Preorder(x)| + 1
                && (forall k | 0 <= k < |Preorder(x)| ::
                      ops[k] == NodeCreatedOp(Preorder(x)[k], parents(Preorder(x)[k].nodeId)))
                && (|ops| > |Preorder(x)| ==> ops[|ops| - 1].ChildrenReordered? && ops[|ops| - 1].reordered.parent == p)
            case Remove(p, i) => |ops| == 1 && ops[0].SubtreeRemoved? && ops[0].removedRoot == ChildAt(t, p, i).Id()
            case Move(p, i, q, _) =>
              forall op | op in ops ::
                if p == q then op.ChildrenReordered? && op.reordered.parent == q
                else
                  && op.NodeMoved? && op.moved == ChildAt(t, p, i).Id()
                  && op.oldParent == Some(p) && op.newParent == Some(q)
            case PatchNodeMeta(p, patch) => ops == [NodeMetaPatched(p, patch)]
            case PatchNodeParam(p, patch) => ops == [ParamPatched(p, p, patch)]
  {
    if e.Insert? {
      CreatedUnderParents(Preorder(e.subtree), parents);
    }
  }

  lemma {:induction false} RemoveCommutes(t: Tree, p: NodeId, i: nat, parents: NodeId -> Option<NodeId>)
    requires WellFormed(t) && Allowed(t, Remove(p, i))
    ensures WellFormed(Edited(t, Remove(p, i)))
    ensures ApplyOps(Flatten(t), Describe(t, Remove(p, i), parents)) == Flatten(Edited(t, Remove(p, i)))
  {
    var after, x := Edited(t, Remove(p, i)), ChildAt(t, p, i);
    DetachShape(t, p, i);
    DetachFlattens(t, p, i);
    OrderOfFlat(after, p);
    PreorderIdSet(x);
    var ids := NodeIds(Preorder(x));
    ApplyOneOp(Flatten(t), SubtreeRemoved(x.Id(), ids, ChildrenOrderPatch(after, p)));
  }

  /** Taking the nodes of a subtree out and putting them back leaves only the two child orders changed. */
  lemma {:induction false} MovedStore(s: Store, moved: Store, p: NodeId, q: NodeId, orderP: seq<NodeId>,
                                      orderQ: seq<NodeId>)
    requires moved.Keys <= s.Keys && forall k | k in moved :: s[k] == moved[k]
    requires p in s && q in s && p !in moved && q !in moved
    ensures SetChildren(SetChildren(s - moved.Keys, p, orderP) + moved, q, orderQ)
            == SetChildren(SetChildren(s, p, orderP), q, orderQ)
  {
  }

  lemma {:induction false} MoveFlattens(t: Tree, p: NodeId, i: nat, q: NodeId, j: nat)
    requires WellFormed(t) && Allowed(t, Move(p, i, q, j))
    ensures WellFormed(Edited(t, Move(p, i, q, j)))
    ensures Ids(Edited(t, Move(p, i, q, j))) == Ids(t)
    ensures var kids, newKids := Find(t, p).kids, Find(Detach(t, p, i), q).kids;
            Flatten(Edited(t, Move(p, i, q, j)))
            == SetChildren(SetChildren(Flatten(t), p, RootIds(kids[..i] + kids[i + 1..])),
                           q, RootIds(newKids[..j] + [kids[i]] + newKids[j..]))
  {
    var x, middle := ChildAt(t, p, i), Detach(t, p, i);
    DetachShape(t, p, i);
    DetachFlattens(t, p, i);
    AttachFlattens(middle, q, j, x);
    var kids, newKids := Find(t, p).kids, Find(middle, q).kids;
    MovedStore(Flatten(t), Flatten(x), p, q, RootIds(kids[..i] + kids[i + 1..]),
               RootIds(newKids[..j] + [x] + newKids[j..]));
  }

  /** Child orders read off the final store are the ones that were set. */
  lemma {:induction false} OrdersReadBack(s: Store, p: NodeId, q: NodeId, orderP: seq<NodeId>, orderQ: seq<NodeId>)
    requires p in s && q in s
    ensures var flat := SetChildren(SetChildren(s, p, orderP), q, orderQ);
            && p in flat && q in flat
            && (p == q ==> SetChildren(s, q, flat[q].children) == flat)
            && (p != q ==> SetChildren(SetChildren(s, p, flat[p].children), q, flat[q].children) == flat)
  {
  }

  lemma {:induction false} MoveCommutes(t: Tree, p: NodeId, i: nat, q: NodeId, j: nat,
                                        parents: NodeId -> Option<NodeId>)
    requires WellFormed(t) && Allowed(t, Move(p, i, q, j))
    ensures WellFormed(Edited(t, Move(p, i, q, j)))
    ensures ApplyOps(Flatten(t), Describe(t, Move(p, i, q, j), parents)) == Flatten(Edited(t, Move(p, i, q, j)))
  {
    var x, after := ChildAt(t, p, i), Edited(t, Move(p, i, q, j));
    var kids, newKids := Find(t, p).kids, Find(Detach(t, p, i), q).kids;
    MoveFlattens(t, p, i, q, j);
    OrdersReadBack(Flatten(t), p, q, RootIds(kids[..i] + kids[i + 1..]),
                   RootIds(newKids[..j] + [kids[i]] + newKids[j..]));
    var flat := Flatten(after);
    var orderP, orderQ := ChildrenOrder(p, flat[p].children), ChildrenOrder(q, flat[q].children);
    OrderOfFlat(after, p);
    OrderOfFlat(after, q);
    var op := if p == q then ChildrenReordered(orderQ)
              else NodeMoved(x.Id(), Some(p), Some(q), Some(orderP), Some(orderQ));
    assert Describe(t, Move(p, i, q, j), parents) == [op];
    ApplyOneOp(Flatten(t), op);
  }

  /** One edit: applying the published operations to the flat store gives the flat store of the edited tree. */
  lemma {:induction false} EditCommutes(t: Tree, e: Edit, parents: NodeId -> Option<NodeId>)
    requires WellFormed(t) && Allowed(t, e)
    ensures WellFormed(Edited(t, e))
    ensures ApplyOps(Flatten(t), Describe(t, e, parents)) == Flatten(Edited(t, e))
  {
    match e {
      case Insert(p, i, x) => InsertCommutes(t, p, i, x, parents);
      case Remove(p, i) => RemoveCommutes(t, p, i, parents);
      case Move(p, i, q, j) => MoveCommutes(t, p, i, q, j, parents);
      case PatchNodeMeta(p, patch) =>
        var dto := Find(t, p).dto;
        FlattenAt(t, p);
        RewriteFlattens(t, p, dto.(meta := PatchMeta(dto.meta, patch)));
        ApplyOneOp(Flatten(t), NodeMetaPatched(p, patch));
      case PatchNodeParam(p, patch) =>
        var dto := Find(t, p).dto;
        FlattenAt(t, p);
        RewriteFlattens(t, p, dto.(data := Parameter(PatchParam(dto.data.param, patch))));
        ApplyOneOp(Flatten(t), ParamPatched(p, p, patch));
    }
  }
}
