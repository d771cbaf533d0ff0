/** What one event, one graph operation and a whole stream mean for the node store. */
module StoreSemantics {
  import opened UiTypes

  predicate HoldsParam(s: Store, p: NodeId) {
    p in s && s[p].data.Parameter?
  }

  function SetParam(s: Store, p: NodeId, param: ParamDto): Store
    requires HoldsParam(s, p)
  {
    s[p := s[p].(data := Parameter(param))]
  }

  /** One parameter event against one parameter payload. The default is only kept while it differs from the value. */
  function ChangeParam(d: ParamDto, oldValue: ParamValue, newValue: ParamValue): ParamDto {
    var remembered := if d.defaultValue.None? && oldValue != newValue then Some(oldValue) else d.defaultValue;
    d.(value := newValue, defaultValue := if remembered == Some(newValue) then None else remembered)
  }

  function Or<T>(replacement: Option<T>, current: T): T {
    match replacement
    case Some(v) => v
    case None => current
  }

  function PatchMeta(m: NodeMeta, patch: NodeMetaPatch): NodeMeta {
    NodeMeta(
      Or(patch.displayLabel, m.displayLabel),
      Or(patch.shortName, m.shortName),
      Or(patch.enabled, m.enabled),
      Or(patch.canBeDisabled, m.canBeDisabled),
      Or(patch.description, m.description),
      Or(patch.userPermissions, m.userPermissions),
      Or(patch.tags, m.tags),
      Or(patch.presentation, m.presentation))
  }

  function PatchParam(d: ParamDto, patch: ParamPatch): ParamDto {
    d.(value := Or(patch.value, d.value),
       control := Or(patch.control, d.control),
       constraints := Or(patch.constraints, d.constraints))
  }

  function SetChildren(s: Store, parent: NodeId, children: seq<NodeId>): Store {
    if parent in s then s[parent := s[parent].(children := children)] else s
  }

  function SetOrder(s: Store, order: Option<ChildrenOrder>): Store {
    match order
    case Some(o) => SetChildren(s, o.parent, o.children)
    case None => s
  }

  function InsertNodes(s: Store, nodes: seq<NodeDto>): Store
    decreases |nodes|
  {
    if nodes == [] then s else
    var before := InsertNodes(s, nodes[..|nodes| - 1]);
    var last := nodes[|nodes| - 1];
    before[last.nodeId := last]
  }

  function RemoveNodes(s: Store, ids: seq<NodeId>): Store {
    s - (set id | id in ids)
  }

  function ApplyOp(s: Store, op: GraphOp): Store {
    match op
    case NodeCreatedOp(snapshot, _) => s[snapshot.nodeId := snapshot]
    case SubtreeInserted(_, under, nodes, childrenAfter) =>
      SetChildren(InsertNodes(s, nodes), under, childrenAfter)
    case SubtreeRemoved(_, removedIds, parentAfter) => SetOrder(RemoveNodes(s, removedIds), parentAfter)
    case NodeMoved(_, _, _, oldAfter, newAfter) => SetOrder(SetOrder(s, oldAfter), newAfter)
    case ChildrenReordered(order) => SetChildren(s, order.parent, order.children)
    case NodeMetaPatched(node, patch) =>
      if node in s then s[node := s[node].(meta := PatchMeta(s[node].meta, patch))] else s
    case ParamPatched(_, p, patch) =>
      if HoldsParam(s, p) then SetParam(s, p, PatchParam(s[p].data.param, patch)) else s
    case HistoryPatched(_) => s
    case LoggerPatched(_) => s
  }

  function ApplyOps(s: Store, ops: seq<GraphOp>): Store
    decreases |ops|
  {
    if ops == [] then s else ApplyOp(ApplyOps(s, ops[..|ops| - 1]), ops[|ops| - 1])
  }

  function ApplyEvent(s: Store, e: Event): Store {
    match e.kind
    case GraphTransaction(_, ops) => ApplyOps(s, ops)
    case ParamChanged(p, oldValue, newValue) =>
      if HoldsParam(s, p) then SetParam(s, p, ChangeParam(s[p].data.param, oldValue, newValue)) else s
    case ParamControlChanged(p, _, control) =>
      if HoldsParam(s, p) then SetParam(s, p, s[p].data.param.(control := control)) else s
    case ParamConstraintsChanged(p, _, constraints) =>
      if HoldsParam(s, p) then SetParam(s, p, s[p].data.param.(constraints := constraints)) else s
    case _ => s
  }

  function Apply(s: Store, events: seq<Event>): Store
    decreases |events|
  {
    if events == [] then s else ApplyEvent(Apply(s, events[..|events| - 1]), events[|events| - 1])
  }

  lemma {:induction false} ApplyConcat(s: Store, a: seq<Event>, b: seq<Event>)
    ensures Apply(s, a + b) == Apply(Apply(s, a), b)
    decreases |b|
  {
    if b == [] {
      assert a + b == a;
    } else {
      var front := b[..|b| - 1];
      assert (a + b)[..|a + b| - 1] == a + front;
      ApplyConcat(s, a, front);
    }
  }

  lemma {:induction false} ApplyOpsConcat(s: Store, a: seq<GraphOp>, b: seq<GraphOp>)
    ensures ApplyOps(s, a + b) == ApplyOps(ApplyOps(s, a), b)
    decreases |b|
  {
    if b == [] {
      assert a + b == a;
    } else {
      assert (a + b)[..|a + b| - 1] == a + b[..|b| - 1];
      ApplyOpsConcat(s, a, b[..|b| - 1]);
    }
  }

  lemma {:induction false} ApplyOneOp(s: Store, op: GraphOp)
    ensures ApplyOps(s, [op]) == ApplyOp(s, op)
  {
    assert [op][..0] == [];
  }

  // ---------------------------------------------------------------------
  // What an operation does to one node
  // ---------------------------------------------------------------------

  predicate Snapshots(nodes: seq<NodeDto>, id: NodeId) {
    exists i :: 0 <= i < |nodes| && nodes[i].nodeId == id
  }

  /** The operation carries a snapshot of the node. */
  predicate OpInserts(op: GraphOp, id: NodeId) {
    match op
    case NodeCreatedOp(snapshot, _) => snapshot.nodeId == id
    case SubtreeInserted(_, _, nodes, _) => Snapshots(nodes, id)
    case _ => false
  }

  lemma {:induction false} InsertedAt(s: Store, r: Store, nodes: seq<NodeDto>, id: NodeId)
    ensures id in InsertNodes(s, nodes) <==> id in s || Snapshots(nodes, id)
    ensures Snapshots(nodes, id) ==>
              id in InsertNodes(r, nodes) && InsertNodes(r, nodes)[id] == InsertNodes(s, nodes)[id]
    ensures !Snapshots(nodes, id) && id in s ==> InsertNodes(s, nodes)[id] == s[id]
    decreases |nodes|
  {
    if nodes != [] {
      var front, last := nodes[..|nodes| - 1], nodes[|nodes| - 1];
      InsertedAt(s, r, front, id);
      assert Snapshots(nodes, id) <==> Snapshots(front, id) || last.nodeId == id by {
        if Snapshots(front, id) {
          var i :| 0 <= i < |front| && front[i].nodeId == id;
          assert nodes[i].nodeId == id;
        }
        if last.nodeId == id {
          assert nodes[|nodes| - 1].nodeId == id;
        }
      }
    }
  }

  /** The operation inserts, removes or patches the parameter. */
  predicate OpTouches(op: GraphOp, p: NodeId) {
    || OpInserts(op, p)
    || (op.SubtreeRemoved? && p in op.removedIds)
    || (op.ParamPatched? && op.patchedParam == p)
  }

  lemma {:induction false} OpLeavesData(s: Store, op: GraphOp, p: NodeId)
    requires !OpTouches(op, p) && p in s
    ensures p in ApplyOp(s, op) && ApplyOp(s, op)[p].data == s[p].data
  {
    if op.SubtreeInserted? {
      InsertedAt(s, s, op.nodes, p);
    }
  }

  lemma {:induction false} OpsLeaveData(s: Store, ops: seq<GraphOp>, p: NodeId)
    requires (forall op | op in ops :: !OpTouches(op, p)) && p in s
    ensures p in ApplyOps(s, ops) && ApplyOps(s, ops)[p].data == s[p].data
    decreases |ops|
  {
    if ops != [] {
      OpsLeaveData(s, ops[..|ops| - 1], p);
      OpLeavesData(ApplyOps(s, ops[..|ops| - 1]), ops[|ops| - 1], p);
    }
  }

  // ---------------------------------------------------------------------
  // Which fields a patch sets
  // ---------------------------------------------------------------------

  /** Only node `id` differs between the stores, and the two have the same nodes. */
  ghost predicate OnlyChanges(s: Store, t: Store, id: NodeId) {
    s.Keys == t.Keys && forall k | k in s && k != id :: t[k] == s[k]
  }

  /** `after` is the patched field if the patch has it, and otherwise what was there. */
  predicate Replaces<T(==)>(patched: Option<T>, before: T, after: T) {
    (patched.Some? ==> after == patched.value) && (patched.None? ==> after == before)
  }

  predicate MetaFieldsSet(before: NodeMeta, patch: NodeMetaPatch, after: NodeMeta) {
    && Replaces(patch.displayLabel, before.displayLabel, after.displayLabel)
    && Replaces(patch.shortName, before.shortName, after.shortName)
    && Replaces(patch.enabled, before.enabled, after.enabled)
    && Replaces(patch.canBeDisabled, before.canBeDisabled, after.canBeDisabled)
    && Replaces(patch.description, before.description, after.description)
    && Replaces(patch.userPermissions, before.userPermissions, after.userPermissions)
    && Replaces(patch.tags, before.tags, after.tags)
    && Replaces(patch.presentation, before.presentation, after.presentation)
  }

  /** A metadata patch sets the fields that it has, each from its own, and nothing else of the node or the store. */
  lemma {:induction false} MetaPatchSetsItsFields(s: Store, id: NodeId, patch: NodeMetaPatch)
    ensures OnlyChanges(s, ApplyOp(s, NodeMetaPatched(id, patch)), id)
    ensures id in s ==>
              var node := ApplyOp(s, NodeMetaPatched(id, patch))[id];
              MetaFieldsSet(s[id].meta, patch, node.meta) && node == s[id].(meta := node.meta)
  {
  }

  predicate ParamFieldsSet(before: ParamDto, patch: ParamPatch, after: ParamDto) {
    && Replaces(patch.value, before.value, after.value)
    && Replaces(patch.control, before.control, after.control)
    && Replaces(patch.constraints, before.constraints, after.constraints)
    && after.defaultValue == before.defaultValue
    && after.eventBehaviour == before.eventBehaviour
    && after.readOnly == before.readOnly
  }

  /** A parameter patch sets the value, the control state and the constraints that it has, of a parameter, and nothing
      else; the remembered default stays. */
  lemma {:induction false} ParamPatchSetsItsFields(s: Store, owner: NodeId, id: NodeId, patch: ParamPatch)
    ensures OnlyChanges(s, ApplyOp(s, ParamPatched(owner, id, patch)), id)
    ensures id in s ==>
              var node := ApplyOp(s, ParamPatched(owner, id, patch))[id];
              && (s[id].data.Plain? ==> node == s[id])
              && (s[id].data.Parameter? ==>
                    && node.data.Parameter?
                    && ParamFieldsSet(s[id].data.param, patch, node.data.param)
                    && node == s[id].(data := node.data))
  {
  }

  /** A parameter event sets what it is about, of a parameter, and nothing else. */
  lemma {:induction false} ParamEventSetsItsField(s: Store, id: NodeId, e: Event)
    requires || (e.kind.ParamChanged? && e.kind.param == id)
             || (e.kind.ParamControlChanged? && e.kind.controlled == id)
             || (e.kind.ParamConstraintsChanged? && e.kind.constrained == id)
    ensures OnlyChanges(s, ApplyEvent(s, e), id)
    ensures id in s ==>
              var node := ApplyEvent(s, e)[id];
              && (s[id].data.Plain? ==> node == s[id])
              && (s[id].data.Parameter? ==>
                    && node.data.Parameter?
                    && node == s[id].(data := node.data)
                    && var before, after := s[id].data.param, node.data.param;
                       && (e.kind.ParamControlChanged? ==> after == before.(control := e.kind.newControl))
                       && (e.kind.ParamConstraintsChanged? ==> after == before.(constraints := e.kind.newConstraints))
                       && (e.kind.ParamChanged? ==>
                             && after.value == e.kind.newValue
                             && after == before.(value := after.value, defaultValue := after.defaultValue)))
  {
  }

  /** After a write the default is remembered exactly while it differs from the value: the one remembered before, or
      else the value that was written over. */
  lemma {:induction false} WriteRemembersDefault(s: Store, e: Event)
    requires e.kind.ParamChanged? && HoldsParam(s, e.kind.param)
    ensures var before := s[e.kind.param].data.param.defaultValue;
            var after := ApplyEvent(s, e)[e.kind.param].data;
            var shown := if before.Some? then before.value else e.kind.oldValue;
            after.Parameter? && after.param.defaultValue == if shown == e.kind.newValue then None else Some(shown)
  {
  }

  /** Events that are neither transactions nor about parameters leave the store alone. */
  lemma {:induction false} OtherEventsChangeNothing(s: Store, e: Event)
    requires !e.kind.GraphTransaction? && !e.kind.ParamChanged?
    requires !e.kind.ParamControlChanged? && !e.kind.ParamConstraintsChanged?
    ensures ApplyEvent(s, e) == s
  {
  }

  // ---------------------------------------------------------------------
  // Agreement up to the remembered defaults
  // ---------------------------------------------------------------------

  function EraseDefault(n: NodeDto): NodeDto {
    match n.data
    case Parameter(d) => n.(data := Parameter(d.(defaultValue := None)))
    case Plain(_) => n
  }

  /** Two stores agree when they are equal except for the `defaultValue` of parameters. */
  ghost predicate Agree(s: Store, t: Store) {
    && s.Keys == t.Keys
    && forall k :: k in s ==> EraseDefault(s[k]) == EraseDefault(t[k])
  }

  lemma {:induction false} ApplyOpKeepsAgreement(s: Store, t: Store, op: GraphOp)
    requires Agree(s, t)
    ensures Agree(ApplyOp(s, op), ApplyOp(t, op))
  {
    match op {
      case SubtreeInserted(_, under, nodes, childrenAfter) =>
        InsertNodesKeepsAgreement(s, t, nodes);
      case SubtreeRemoved(_, removedIds, parentAfter) =>
        SetOrderKeepsAgreement(RemoveNodes(s, removedIds), RemoveNodes(t, removedIds), parentAfter);
      case NodeMoved(_, _, _, oldAfter, newAfter) =>
        SetOrderKeepsAgreement(s, t, oldAfter);
        SetOrderKeepsAgreement(SetOrder(s, oldAfter), SetOrder(t, oldAfter), newAfter);
      case ChildrenReordered(order) =>
      case ParamPatched(_, p, patch) =>
        if p in s {
          assert EraseDefault(s[p]) == EraseDefault(t[p]);
        }
      case NodeMetaPatched(node, patch) =>
        if node in s {
          assert EraseDefault(s[node]) == EraseDefault(t[node]);
        }
      case _ =>
    }
  }

  lemma {:induction false} SetOrderKeepsAgreement(s: Store, t: Store, order: Option<ChildrenOrder>)
    requires Agree(s, t)
    ensures Agree(SetOrder(s, order), SetOrder(t, order))
  {
  }

  lemma {:induction false} InsertNodesKeepsAgreement(s: Store, t: Store, nodes: seq<NodeDto>)
    requires Agree(s, t)
    ensures Agree(InsertNodes(s, nodes), InsertNodes(t, nodes))
    decreases |nodes|
  {
    if nodes == [] {
    } else {
      InsertNodesKeepsAgreement(s, t, nodes[..|nodes| - 1]);
    }
  }

  lemma {:induction false} ApplyOpsKeepsAgreement(s: Store, t: Store, ops: seq<GraphOp>)
    requires Agree(s, t)
    ensures Agree(ApplyOps(s, ops), ApplyOps(t, ops))
    decreases |ops|
  {
    if ops == [] {
    } else {
      var front := ops[..|ops| - 1];
      ApplyOpsKeepsAgreement(s, t, front);
      ApplyOpKeepsAgreement(ApplyOps(s, front), ApplyOps(t, front), ops[|ops| - 1]);
    }
  }

  lemma {:induction false} ApplyEventKeepsAgreement(s: Store, t: Store, e: Event)
    requires Agree(s, t)
    ensures Agree(ApplyEvent(s, e), ApplyEvent(t, e))
  {
    match e.kind {
      case GraphTransaction(_, ops) => ApplyOpsKeepsAgreement(s, t, ops);
      case ParamChanged(p, _, _) =>
        if p in s {
          assert EraseDefault(s[p]) == EraseDefault(t[p]);
        }
      case ParamControlChanged(p, _, _) =>
        if p in s {
          assert EraseDefault(s[p]) == EraseDefault(t[p]);
        }
      case ParamConstraintsChanged(p, _, _) =>
        if p in s {
          assert EraseDefault(s[p]) == EraseDefault(t[p]);
        }
      case _ =>
    }
  }

  /** Agreement is a congruence: no event reads a remembered default into anything else. */
  lemma {:induction false} ApplyKeepsAgreement(s: Store, t: Store, events: seq<Event>)
    requires Agree(s, t)
    ensures Agree(Apply(s, events), Apply(t, events))
    decreases |events|
  {
    if events == [] {
    } else {
      var front := events[..|events| - 1];
      ApplyKeepsAgreement(s, t, front);
      ApplyEventKeepsAgreement(Apply(s, front), Apply(t, front), events[|events| - 1]);
    }
  }
}
