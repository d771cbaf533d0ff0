/** What a snapshot may lag behind in: the payloads of parameters, and nothing that a scope test reads. */
module SnapshotShape {
  import opened UiTypes
  import opened StoreSemantics
  import opened SubtreeScopes

  function ErasePayload(n: NodeDto): NodeDto {
    match n.data
    case Parameter(_) => n.(data := Plain("parameter"))
    case Plain(summary) => n.(data := Plain("node " + summary))
  }

  /** Same ids, children, metadata and kinds of nodes. */
  ghost predicate SameShape(s: Store, t: Store) {
    && s.Keys == t.Keys
    && forall k | k in s :: ErasePayload(s[k]) == ErasePayload(t[k])
  }

  ghost predicate KeysMatch(s: Store) {
    forall k | k in s :: s[k].nodeId == k
  }

  /** Structure or metadata may have changed, so the assembled snapshot is stale. */
  predicate RequiresRebuild(e: Event) {
    || e.kind.GraphTransaction?
    || e.kind.NodeCreated?
    || e.kind.NodeDeleted?
    || e.kind.ChildAdded?
    || e.kind.ChildRemoved?
    || e.kind.ChildReplaced?
    || e.kind.ChildMoved?
    || e.kind.ChildReordered?
    || e.kind.MetaChanged?
  }

  /** The snapshot is reassembled after anything but parameter feedback and custom events. */
  lemma {:induction false} OnlyValuesAreNotRebuilt(e: Event)
    ensures RequiresRebuild(e)
            <==> !e.kind.ParamChanged? && !e.kind.ParamControlChanged?
                 && !e.kind.ParamConstraintsChanged? && !e.kind.Custom?
  {
  }

  lemma {:induction false} SetParamKeepsShape(s: Store, p: NodeId, d: ParamDto)
    requires HoldsParam(s, p)
    ensures SameShape(s, SetParam(s, p, d))
  {
  }

  /** Events that leave the assembled snapshot alone change parameter payloads only. */
  lemma {:induction false} ValueEventsKeepShape(s: Store, events: seq<Event>)
    requires forall e | e in events :: !RequiresRebuild(e)
    ensures SameShape(s, Apply(s, events))
    decreases |events|
  {
    if events == [] {
    } else {
      var front, last := events[..|events| - 1], events[|events| - 1];
      ValueEventsKeepShape(s, front);
      assert !RequiresRebuild(last);
      var t := Apply(s, front);
      match last.kind {
        case ParamChanged(p, oldValue, newValue) =>
          if HoldsParam(t, p) { SetParamKeepsShape(t, p, ChangeParam(t[p].data.param, oldValue, newValue)); }
        case ParamControlChanged(p, _, control) =>
          if HoldsParam(t, p) { SetParamKeepsShape(t, p, t[p].data.param.(control := control)); }
        case ParamConstraintsChanged(p, _, constraints) =>
          if HoldsParam(t, p) { SetParamKeepsShape(t, p, t[p].data.param.(constraints := constraints)); }
        case _ =>
      }
    }
  }

  // ---------------------------------------------------------------------
  // Keys match ids in every store the model can reach
  // ---------------------------------------------------------------------

  lemma {:induction false} InsertNodesKeepsKeys(s: Store, nodes: seq<NodeDto>)
    requires KeysMatch(s)
    ensures KeysMatch(InsertNodes(s, nodes))
    decreases |nodes|
  {
    if nodes != [] {
      InsertNodesKeepsKeys(s, nodes[..|nodes| - 1]);
    }
  }

  lemma {:induction false} ApplyOpsKeepsKeys(s: Store, ops: seq<GraphOp>)
    requires KeysMatch(s)
    ensures KeysMatch(ApplyOps(s, ops))
    decreases |ops|
  {
    if ops != [] {
      var front, last := ops[..|ops| - 1], ops[|ops| - 1];
      ApplyOpsKeepsKeys(s, front);
      if last.SubtreeInserted? {
        InsertNodesKeepsKeys(ApplyOps(s, front), last.nodes);
      }
    }
  }

  lemma {:induction false} ApplyKeepsKeys(s: Store, events: seq<Event>)
    requires KeysMatch(s)
    ensures KeysMatch(Apply(s, events))
    decreases |events|
  {
    if events != [] {
      var front, last := events[..|events| - 1], events[|events| - 1];
      ApplyKeepsKeys(s, front);
      if last.kind.GraphTransaction? {
        ApplyOpsKeepsKeys(Apply(s, front), last.kind.ops);
      }
    }
  }

  // ---------------------------------------------------------------------
  // Scopes read the shape only
  // ---------------------------------------------------------------------

  /** Two listings of stores of the same shape. */
  ghost predicate SameShapeListings(a: seq<NodeDto>, s: Store, b: seq<NodeDto>, t: Store) {
    Enumerates(a, s) && Enumerates(b, t) && SameShape(s, t)
  }

  lemma {:induction false} SameShapeParents(a: seq<NodeDto>, s: Store, b: seq<NodeDto>, t: Store, child: NodeId)
    requires SameShapeListings(a, s, b, t) && OneParentEach(b)
    ensures ParentOf(a, child) == ParentOf(b, child)
  {
    var pa, pb := ParentOf(a, child), ParentOf(b, child);
    if pa.Some? {
      var n :| n in a && n.nodeId == pa.value && child in n.children;
    }
    if pb.Some? {
      var m :| m in b && m.nodeId == pb.value && child in m.children;
    }
  }

  /** The bottom-up test gives the same answer on any listing of any store of that shape. */
  lemma {:induction false} SameShapeClimbs(a: seq<NodeDto>, s: Store, b: seq<NodeDto>, t: Store, node: NodeId,
                                           root: NodeId, budget: nat)
    requires SameShapeListings(a, s, b, t) && OneParentEach(b)
    ensures Climbs(a, node, root, budget) == Climbs(b, node, root, budget)
    decreases budget
  {
    SameShapeParents(a, s, b, t, node);
    if budget > 0 && ParentOf(b, node).Some? {
      SameShapeClimbs(a, s, b, t, ParentOf(b, node).value, root, budget - 1);
    }
  }

  function EraseAll(nodes: seq<NodeDto>): (r: seq<NodeDto>)
    ensures |r| == |nodes|
    ensures forall i | 0 <= i < |nodes| :: r[i] == ErasePayload(nodes[i])
  {
    seq(|nodes|, i requires 0 <= i < |nodes| => ErasePayload(nodes[i]))
  }

  lemma {:induction false} EraseAllConcat(x: seq<NodeDto>, y: seq<NodeDto>)
    ensures EraseAll(x + y) == EraseAll(x) + EraseAll(y)
  {
  }

  function Below(nodes: seq<NodeDto>, children: seq<NodeId>, budget: nat): seq<NodeDto> {
    if budget == 0 then [] else DepthFirstAll(nodes, children, budget - 1)
  }

  lemma {:induction false} DepthFirstAt(nodes: seq<NodeDto>, s: Store, id: NodeId, budget: nat)
    requires Enumerates(nodes, s)
    ensures DepthFirst(nodes, id, budget) == if id in s then [s[id]] + Below(nodes, s[id].children, budget) else []
  {
    EnumeratesFinds(nodes, s, id);
  }

  /** The top-down listing of a lagging snapshot is the live one, up to parameter payloads. */
  lemma {:induction false} SameShapeDepthFirst(a: seq<NodeDto>, s: Store, b: seq<NodeDto>, t: Store, id: NodeId,
                                               budget: nat)
    requires SameShapeListings(a, s, b, t)
    ensures EraseAll(DepthFirst(a, id, budget)) == EraseAll(DepthFirst(b, id, budget))
    decreases budget, 0
  {
    hide DepthFirst, DepthFirstAll, EraseAll, NodeAt, Enumerates;
    DepthFirstAt(a, s, id, budget);
    DepthFirstAt(b, t, id, budget);
    if id in s {
      var children := s[id].children;
      assert ErasePayload(s[id]) == ErasePayload(t[id]) && t[id].children == children;
      if budget > 0 {
        SameShapeDepthFirstAll(a, s, b, t, children, budget - 1);
      }
    }
  }

  lemma {:induction false} SameShapeDepthFirstAll(a: seq<NodeDto>, s: Store, b: seq<NodeDto>, t: Store,
                                                  ids: seq<NodeId>, budget: nat)
    requires SameShapeListings(a, s, b, t)
    ensures EraseAll(DepthFirstAll(a, ids, budget)) == EraseAll(DepthFirstAll(b, ids, budget))
    decreases budget, 1, |ids|
  {
    if ids != [] {
      SameShapeDepthFirst(a, s, b, t, ids[0], budget);
      SameShapeDepthFirstAll(a, s, b, t, ids[1..], budget);
      EraseAllConcat(DepthFirst(a, ids[0], budget), DepthFirstAll(a, ids[1..], budget));
      EraseAllConcat(DepthFirst(b, ids[0], budget), DepthFirstAll(b, ids[1..], budget));
    }
  }

  // ---------------------------------------------------------------------
  // Events under a scope
  // ---------------------------------------------------------------------

  predicate AnyClimbs(nodes: seq<NodeDto>, candidates: seq<NodeId>, root: NodeId, maxDepth: u32) {
    exists i :: 0 <= i < |candidates| && Climbs(nodes, candidates[i], root, maxDepth)
  }

  function Present(id: Option<NodeId>): seq<NodeId> {
    match id case Some(v) => [v] case None => []
  }

  function PatchParent(order: Option<ChildrenOrder>): seq<NodeId> {
    match order case Some(o) => [o.parent] case None => []
  }

  /** The nodes whose membership decides whether an operation concerns a subtree. */
  function OpCandidates(op: GraphOp): seq<NodeId> {
    match op
    case NodeCreatedOp(snapshot, under) => [snapshot.nodeId] + Present(under)
    case SubtreeInserted(inserted, under, nodes, _) =>
      [under, inserted] + seq(|nodes|, i requires 0 <= i < |nodes| => nodes[i].nodeId)
    case SubtreeRemoved(_, _, parentAfter) => PatchParent(parentAfter)
    case NodeMoved(node, oldParent, newParent, oldAfter, newAfter) =>
      [node] + Present(oldParent) + Present(newParent) + PatchParent(oldAfter) + PatchParent(newAfter)
    case ChildrenReordered(order) => [order.parent]
    case NodeMetaPatched(node, _) => [node]
    case ParamPatched(node, param, _) => [node, param]
    case HistoryPatched(_) => []
    case LoggerPatched(_) => []
  }

  predicate OpMatches(nodes: seq<NodeDto>, op: GraphOp, root: NodeId, maxDepth: u32) {
    || op.HistoryPatched?
    || op.LoggerPatched?
    || (op.SubtreeRemoved? && (op.removedRoot == root || root in op.removedIds))
    || AnyClimbs(nodes, OpCandidates(op), root, maxDepth)
  }

  function MatchingOps(nodes: seq<NodeDto>, ops: seq<GraphOp>, root: NodeId, maxDepth: u32): seq<GraphOp> {
    if ops == [] then []
    else (if OpMatches(nodes, ops[0], root, maxDepth) then [ops[0]] else [])
         + MatchingOps(nodes, ops[1..], root, maxDepth)
  }

  function EventCandidates(kind: EventKind): seq<NodeId> {
    match kind
    case GraphTransaction(_, _) => []
    case ParamChanged(p, _, _) => [p]
    case ParamControlChanged(p, _, _) => [p]
    case ParamConstraintsChanged(p, _, _) => [p]
    case ChildAdded(parent, child) => [parent, child]
    case ChildRemoved(parent, child) => [parent, child]
    case ChildReplaced(parent, before, after) => [parent, before, after]
    case ChildMoved(child, from, to) => [child, from, to]
    case ChildReordered(parent, child) => [parent, child]
    case NodeCreated(node) => [node]
    case NodeDeleted(node) => [node]
    case MetaChanged(node) => [node]
    case Custom(_, origin, _) => Present(origin)
  }

  /** What a client with `scope` is told about `e`; transactions are cut down to the operations that concern it. */
  function EventForScope(nodes: seq<NodeDto>, scope: Scope, e: Event): Option<Event> {
    match scope
    case WholeGraph => Some(e)
    case Subtree(root, maxDepth) =>
      if e.kind.GraphTransaction? then
        var ops := MatchingOps(nodes, e.kind.ops, root, maxDepth);
        if ops == [] then None else Some(e.(kind := e.kind.(ops := ops)))
      else if AnyClimbs(nodes, EventCandidates(e.kind), root, maxDepth) then Some(e)
      else None
  }

  function EventsForScope(nodes: seq<NodeDto>, scope: Scope, events: seq<Event>): seq<Event> {
    if events == [] then []
    else (match EventForScope(nodes, scope, events[0]) case Some(e) => [e] case None => [])
         + EventsForScope(nodes, scope, events[1..])
  }

  lemma {:induction false} WholeGraphKeepsAll(nodes: seq<NodeDto>, events: seq<Event>)
    ensures EventsForScope(nodes, WholeGraph, events) == events
  {
    if events != [] {
      WholeGraphKeepsAll(nodes, events[1..]);
    }
  }

  lemma {:induction false} SameShapeAnyClimbs(a: seq<NodeDto>, s: Store, b: seq<NodeDto>, t: Store,
                                              candidates: seq<NodeId>, root: NodeId, maxDepth: u32)
    requires SameShapeListings(a, s, b, t) && OneParentEach(b)
    ensures AnyClimbs(a, candidates, root, maxDepth) == AnyClimbs(b, candidates, root, maxDepth)
  {
    forall i | 0 <= i < |candidates|
      ensures Climbs(a, candidates[i], root, maxDepth) == Climbs(b, candidates[i], root, maxDepth)
    {
      SameShapeClimbs(a, s, b, t, candidates[i], root, maxDepth);
    }
  }

  lemma {:induction false} SameShapeOps(a: seq<NodeDto>, s: Store, b: seq<NodeDto>, t: Store, ops: seq<GraphOp>,
                                        root: NodeId, maxDepth: u32)
    requires SameShapeListings(a, s, b, t) && OneParentEach(b)
    ensures MatchingOps(a, ops, root, maxDepth) == MatchingOps(b, ops, root, maxDepth)
  {
    if ops != [] {
      SameShapeAnyClimbs(a, s, b, t, OpCandidates(ops[0]), root, maxDepth);
      SameShapeOps(a, s, b, t, ops[1..], root, maxDepth);
    }
  }

  /** Scoping a stream against a lagging snapshot scopes it as the live store would. */
  lemma {:induction false} SameShapeEvents(a: seq<NodeDto>, s: Store, b: seq<NodeDto>, t: Store, scope: Scope,
                                           events: seq<Event>)
    requires SameShapeListings(a, s, b, t) && OneParentEach(b)
    ensures EventsForScope(a, scope, events) == EventsForScope(b, scope, events)
  {
    if events != [] {
      var kind := events[0].kind;
      if scope.Subtree? {
        if kind.GraphTransaction? {
          SameShapeOps(a, s, b, t, kind.ops, scope.root, scope.maxDepth);
        } else {
          SameShapeAnyClimbs(a, s, b, t, EventCandidates(kind), scope.root, scope.maxDepth);
        }
      }
      SameShapeEvents(a, s, b, t, scope, events[1..]);
    }
  }
}
