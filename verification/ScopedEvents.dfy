/** Which events and which operations a client of one subtree is told, kind by kind. */
module ScopedEvents {
  import opened UiTypes
  import opened SubtreeScopes
  import opened SnapshotShape

  /** One of the nodes that an event names is in the subtree. */
  ghost predicate EventInSubtree(nodes: seq<NodeDto>, root: NodeId, maxDepth: u32, kind: EventKind)
    requires !kind.GraphTransaction?
  {
    match kind
    case ParamChanged(p, _, _) => WithinSubtree(nodes, p, root, maxDepth)
    case ParamControlChanged(p, _, _) => WithinSubtree(nodes, p, root, maxDepth)
    case ParamConstraintsChanged(p, _, _) => WithinSubtree(nodes, p, root, maxDepth)
    case ChildAdded(parent, child) =>
      WithinSubtree(nodes, parent, root, maxDepth) || WithinSubtree(nodes, child, root, maxDepth)
    case ChildRemoved(parent, child) =>
      WithinSubtree(nodes, parent, root, maxDepth) || WithinSubtree(nodes, child, root, maxDepth)
    case ChildReplaced(parent, before, after) =>
      || WithinSubtree(nodes, parent, root, maxDepth)
      || WithinSubtree(nodes, before, root, maxDepth)
      || WithinSubtree(nodes, after, root, maxDepth)
    case ChildMoved(child, from, to) =>
      || WithinSubtree(nodes, child, root, maxDepth)
      || WithinSubtree(nodes, from, root, maxDepth)
      || WithinSubtree(nodes, to, root, maxDepth)
    case ChildReordered(parent, child) =>
      WithinSubtree(nodes, parent, root, maxDepth) || WithinSubtree(nodes, child, root, maxDepth)
    case NodeCreated(node) => WithinSubtree(nodes, node, root, maxDepth)
    case NodeDeleted(node) => WithinSubtree(nodes, node, root, maxDepth)
    case MetaChanged(node) => WithinSubtree(nodes, node, root, maxDepth)
    case Custom(_, origin, _) => origin.Some? && WithinSubtree(nodes, origin.value, root, maxDepth)
  }

  ghost predicate OrderInSubtree(nodes: seq<NodeDto>, root: NodeId, maxDepth: u32, order: Option<ChildrenOrder>) {
    order.Some? && WithinSubtree(nodes, order.value.parent, root, maxDepth)
  }

  /** One of the nodes that an operation names is in the subtree, or the operation removes the root, or it is about
      history or logs. */
  ghost predicate OpInSubtree(nodes: seq<NodeDto>, root: NodeId, maxDepth: u32, op: GraphOp) {
    match op
    case NodeCreatedOp(snapshot, under) =>
      || WithinSubtree(nodes, snapshot.nodeId, root, maxDepth)
      || (under.Some? && WithinSubtree(nodes, under.value, root, maxDepth))
    case SubtreeInserted(inserted, under, added, _) =>
      || WithinSubtree(nodes, under, root, maxDepth)
      || WithinSubtree(nodes, inserted, root, maxDepth)
      || exists n :: n in added && WithinSubtree(nodes, n.nodeId, root, maxDepth)
    case SubtreeRemoved(removed, removedIds, parentAfter) =>
      || removed == root
      || root in removedIds
      || OrderInSubtree(nodes, root, maxDepth, parentAfter)
    case NodeMoved(node, oldParent, newParent, oldAfter, newAfter) =>
      || WithinSubtree(nodes, node, root, maxDepth)
      || (oldParent.Some? && WithinSubtree(nodes, oldParent.value, root, maxDepth))
      || (newParent.Some? && WithinSubtree(nodes, newParent.value, root, maxDepth))
      || OrderInSubtree(nodes, root, maxDepth, oldAfter)
      || OrderInSubtree(nodes, root, maxDepth, newAfter)
    case ChildrenReordered(order) => WithinSubtree(nodes, order.parent, root, maxDepth)
    case NodeMetaPatched(node, _) => WithinSubtree(nodes, node, root, maxDepth)
    case ParamPatched(owner, p, _) =>
      WithinSubtree(nodes, owner, root, maxDepth) || WithinSubtree(nodes, p, root, maxDepth)
    case HistoryPatched(_) => true
    case LoggerPatched(_) => true
  }

  ghost predicate AnyWithin(nodes: seq<NodeDto>, ids: seq<NodeId>, root: NodeId, maxDepth: u32) {
    exists id :: id in ids && WithinSubtree(nodes, id, root, maxDepth)
  }

  lemma {:induction false} ClimbsIfWithin(nodes: seq<NodeDto>, ids: seq<NodeId>, root: NodeId, maxDepth: u32)
    ensures AnyClimbs(nodes, ids, root, maxDepth) <==> AnyWithin(nodes, ids, root, maxDepth)
  {
    forall i | 0 <= i < |ids|
      ensures Climbs(nodes, ids[i], root, maxDepth) <==> WithinSubtree(nodes, ids[i], root, maxDepth)
    {
      ClimbsReachesAncestors(nodes, ids[i], root, maxDepth);
    }
    hide Climbs, WithinSubtree;
    if AnyClimbs(nodes, ids, root, maxDepth) {
      var i :| 0 <= i < |ids| && Climbs(nodes, ids[i], root, maxDepth);
      assert ids[i] in ids;
    }
  }

  lemma {:induction false} WithinConcat(nodes: seq<NodeDto>, a: seq<NodeId>, b: seq<NodeId>, root: NodeId,
                                        maxDepth: u32)
    ensures AnyWithin(nodes, a + b, root, maxDepth)
            <==> AnyWithin(nodes, a, root, maxDepth) || AnyWithin(nodes, b, root, maxDepth)
  {
    hide WithinSubtree;
  }

  lemma {:induction false} WithinFew(nodes: seq<NodeDto>, a: NodeId, b: NodeId, c: NodeId, root: NodeId, maxDepth: u32)
    ensures !AnyWithin(nodes, [], root, maxDepth)
    ensures AnyWithin(nodes, [a], root, maxDepth) <==> WithinSubtree(nodes, a, root, maxDepth)
    ensures AnyWithin(nodes, [a, b], root, maxDepth)
            <==> WithinSubtree(nodes, a, root, maxDepth) || WithinSubtree(nodes, b, root, maxDepth)
    ensures AnyWithin(nodes, [a, b, c], root, maxDepth)
            <==> || WithinSubtree(nodes, a, root, maxDepth)
                 || WithinSubtree(nodes, b, root, maxDepth)
                 || WithinSubtree(nodes, c, root, maxDepth)
  {
    hide WithinSubtree;
    assert a in [a] && a in [a, b] && b in [a, b] && a in [a, b, c] && b in [a, b, c] && c in [a, b, c];
  }

  /** A client of one subtree is told an event other than a transaction, unchanged, exactly if the event names a node of
      the subtree. */
  lemma {:induction false} EventsAreTold(nodes: seq<NodeDto>, root: NodeId, maxDepth: u32, e: Event)
    requires !e.kind.GraphTransaction?
    ensures EventForScope(nodes, Subtree(root, maxDepth), e)
            == if EventInSubtree(nodes, root, maxDepth, e.kind) then Some(e) else None
  {
    ClimbsIfWithin(nodes, EventCandidates(e.kind), root, maxDepth);
    hide AnyWithin, AnyClimbs, WithinSubtree;
    match e.kind {
      case ParamChanged(p, _, _) => WithinFew(nodes, p, p, p, root, maxDepth);
      case ParamControlChanged(p, _, _) => WithinFew(nodes, p, p, p, root, maxDepth);
      case ParamConstraintsChanged(p, _, _) => WithinFew(nodes, p, p, p, root, maxDepth);
      case ChildAdded(parent, child) => WithinFew(nodes, parent, child, child, root, maxDepth);
      case ChildRemoved(parent, child) => WithinFew(nodes, parent, child, child, root, maxDepth);
      case ChildReplaced(parent, before, after) => WithinFew(nodes, parent, before, after, root, maxDepth);
      case ChildMoved(child, from, to) => WithinFew(nodes, child, from, to, root, maxDepth);
      case ChildReordered(parent, child) => WithinFew(nodes, parent, child, child, root, maxDepth);
      case NodeCreated(node) => WithinFew(nodes, node, node, node, root, maxDepth);
      case NodeDeleted(node) => WithinFew(nodes, node, node, node, root, maxDepth);
      case MetaChanged(node) => WithinFew(nodes, node, node, node, root, maxDepth);
      case Custom(_, origin, _) =>
        var id := if origin.Some? then origin.value else root;
        WithinFew(nodes, id, id, id, root, maxDepth);
    }
  }

  lemma {:induction false} WithinPresent(nodes: seq<NodeDto>, id: Option<NodeId>, root: NodeId, maxDepth: u32)
    ensures AnyWithin(nodes, Present(id), root, maxDepth)
            <==> id.Some? && WithinSubtree(nodes, id.value, root, maxDepth)
  {
  }

  lemma {:induction false} WithinOrder(nodes: seq<NodeDto>, order: Option<ChildrenOrder>, root: NodeId, maxDepth: u32)
    ensures AnyWithin(nodes, PatchParent(order), root, maxDepth) <==> OrderInSubtree(nodes, root, maxDepth, order)
  {
  }

  lemma {:induction false} WithinAdded(nodes: seq<NodeDto>, op: GraphOp, root: NodeId, maxDepth: u32)
    requires op.SubtreeInserted?
    ensures AnyWithin(nodes, OpCandidates(op), root, maxDepth) <==> OpInSubtree(nodes, root, maxDepth, op)
  {
    hide WithinSubtree;
    var ids, added := OpCandidates(op), op.nodes;
    assert ids[0] == op.under && ids[1] == op.insertedRoot;
    assert forall i | 0 <= i < |added| :: ids[i + 2] == added[i].nodeId;
    forall id | id in ids
      ensures id == op.under || id == op.insertedRoot || exists n :: n in added && n.nodeId == id
    {
      var i :| 0 <= i < |ids| && ids[i] == id;
      if i >= 2 {
        assert added[i - 2] in added;
      }
    }
    forall n | n in added
      ensures n.nodeId in ids
    {
      var i :| 0 <= i < |added| && added[i] == n;
      assert ids[i + 2] == n.nodeId;
    }
  }

  lemma {:induction false} WithinMoved(nodes: seq<NodeDto>, op: GraphOp, root: NodeId, maxDepth: u32)
    requires op.NodeMoved?
    ensures AnyWithin(nodes, OpCandidates(op), root, maxDepth) <==> OpInSubtree(nodes, root, maxDepth, op)
  {
    var a, b, c := [op.moved], Present(op.oldParent), Present(op.newParent);
    var d, e := PatchParent(op.oldParentAfter), PatchParent(op.newParentAfter);
    WithinFew(nodes, op.moved, op.moved, op.moved, root, maxDepth);
    WithinPresent(nodes, op.oldParent, root, maxDepth);
    WithinPresent(nodes, op.newParent, root, maxDepth);
    WithinOrder(nodes, op.oldParentAfter, root, maxDepth);
    WithinOrder(nodes, op.newParentAfter, root, maxDepth);
    hide AnyWithin, WithinSubtree, OrderInSubtree;
    WithinConcat(nodes, a, b, root, maxDepth);
    WithinConcat(nodes, a + b, c, root, maxDepth);
    WithinConcat(nodes, a + b + c, d, root, maxDepth);
    WithinConcat(nodes, a + b + c + d, e, root, maxDepth);
  }

  /** Of the events other than transactions, exactly those that name a node of the subtree are told. */
  lemma {:induction false} ToldIfInSubtree(nodes: seq<NodeDto>, root: NodeId, maxDepth: u32, events: seq<Event>,
                                           e: Event)
    requires !e.kind.GraphTransaction?
    ensures e in EventsForScope(nodes, Subtree(root, maxDepth), events)
            <==> e in events && EventInSubtree(nodes, root, maxDepth, e.kind)
    decreases |events|
  {
    if events != [] {
      ToldIfInSubtree(nodes, root, maxDepth, events[1..], e);
      var first, told := events[0], EventForScope(nodes, Subtree(root, maxDepth), events[0]);
      if first.kind.GraphTransaction? {
        assert told.Some? ==> told.value.kind.GraphTransaction?;
      } else {
        EventsAreTold(nodes, root, maxDepth, first);
      }
      hide EventForScope, EventInSubtree;
      assert forall x :: x in events <==> x == first || x in events[1..];
    }
  }

  /** An operation is passed on exactly if it names a node of the subtree, removes its root, or is about history or
      logs. */
  lemma {:induction false} OpsAreKept(nodes: seq<NodeDto>, root: NodeId, maxDepth: u32, op: GraphOp)
    ensures OpMatches(nodes, op, root, maxDepth) <==> OpInSubtree(nodes, root, maxDepth, op)
  {
    ClimbsIfWithin(nodes, OpCandidates(op), root, maxDepth);
    hide AnyClimbs, WithinSubtree;
    match op {
      case NodeCreatedOp(snapshot, under) =>
        WithinFew(nodes, snapshot.nodeId, root, root, root, maxDepth);
        WithinPresent(nodes, under, root, maxDepth);
        WithinConcat(nodes, [snapshot.nodeId], Present(under), root, maxDepth);
      case SubtreeInserted(_, _, _, _) => WithinAdded(nodes, op, root, maxDepth);
      case SubtreeRemoved(_, _, parentAfter) => WithinOrder(nodes, parentAfter, root, maxDepth);
      case NodeMoved(_, _, _, _, _) => WithinMoved(nodes, op, root, maxDepth);
      case ChildrenReordered(order) => WithinFew(nodes, order.parent, root, root, root, maxDepth);
      case NodeMetaPatched(node, _) => WithinFew(nodes, node, root, root, root, maxDepth);
      case ParamPatched(owner, p, _) => WithinFew(nodes, owner, p, root, root, maxDepth);
      case HistoryPatched(_) =>
      case LoggerPatched(_) =>
    }
  }

  /** The operations of a transaction that concern a subtree, in their order. */
  ghost function OpsInSubtree(nodes: seq<NodeDto>, root: NodeId, maxDepth: u32, ops: seq<GraphOp>): seq<GraphOp> {
    if ops == [] then []
    else (if OpInSubtree(nodes, root, maxDepth, ops[0]) then [ops[0]] else [])
         + OpsInSubtree(nodes, root, maxDepth, ops[1..])
  }

  lemma {:induction false} MatchingOpsAreKept(nodes: seq<NodeDto>, root: NodeId, maxDepth: u32, ops: seq<GraphOp>)
    ensures MatchingOps(nodes, ops, root, maxDepth) == OpsInSubtree(nodes, root, maxDepth, ops)
    decreases |ops|
  {
    if ops != [] {
      OpsAreKept(nodes, root, maxDepth, ops[0]);
      MatchingOpsAreKept(nodes, root, maxDepth, ops[1..]);
    }
  }

  /** Of a transaction the client is told the operations that concern its subtree, and nothing if there is none. */
  lemma {:induction false} TransactionsAreCutDown(nodes: seq<NodeDto>, root: NodeId, maxDepth: u32, e: Event)
    requires e.kind.GraphTransaction?
    ensures var ops := OpsInSubtree(nodes, root, maxDepth, e.kind.ops);
            EventForScope(nodes, Subtree(root, maxDepth), e)
            == if ops == [] then None else Some(Event(e.time, GraphTransaction(e.kind.txId, ops)))
  {
    MatchingOpsAreKept(nodes, root, maxDepth, e.kind.ops);
  }

  lemma {:induction false} ToldAlone(nodes: seq<NodeDto>, scope: Scope, e: Event)
    ensures EventsForScope(nodes, scope, [e])
            == match EventForScope(nodes, scope, e) case Some(told) => [told] case None => []
  {
    hide EventForScope;
    assert [e][1..] == [];
    assert EventsForScope(nodes, scope, []) == [];
  }

  /** Events are told in their order, each one as if it were alone. */
  lemma {:induction false} EventsAreToldInOrder(nodes: seq<NodeDto>, scope: Scope, a: seq<Event>, e: Event)
    ensures EventsForScope(nodes, scope, a + [e])
            == EventsForScope(nodes, scope, a)
               + (match EventForScope(nodes, scope, e) case Some(told) => [told] case None => [])
    decreases |a|
  {
    hide EventForScope;
    if a == [] {
      assert a + [e] == [e];
      ToldAlone(nodes, scope, e);
    } else {
      assert (a + [e])[1..] == a[1..] + [e];
      EventsAreToldInOrder(nodes, scope, a[1..], e);
    }
  }
}
