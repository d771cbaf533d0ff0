/** The data the UI protocol carries: node snapshots, graph operations and events.

  Payloads that the read model only copies and compares (constraints, control
  states, presentation hints, permissions) are opaque strings. Parameter values
  have lawful equality: floating-point payloads are `real`.
 */
module UiTypes {

  datatype Option<+T> = None | Some(value: T)

  type NodeId = nat

  type u32 = x: int | 0 <= x < 0x1_0000_0000

  function SaturatingNext(x: u32): u32 {
    if x < 0xFFFF_FFFF then x + 1 else x
  }

  type u64 = x: int | 0 <= x < 0x1_0000_0000_0000_0000

  /** The next generation or counter value, saturating. */
  function Bumped(x: u64): u64 {
    if x < 0xFFFF_FFFF_FFFF_FFFF then x + 1 else x
  }

  /** Engine time, ordered lexicographically. */
  datatype EngineTime = EngineTime(tick: nat, micro: nat, sequence: nat) {
    predicate Before(other: EngineTime) {
      || tick < other.tick
      || (tick == other.tick && micro < other.micro)
      || (tick == other.tick && micro == other.micro && sequence < other.sequence)
    }

    predicate AtMost(other: EngineTime) {
      this == other || Before(other)
    }
  }

  function LaterOf(a: EngineTime, b: EngineTime): EngineTime {
    if a.Before(b) then b else a
  }

  datatype ParamValue =
    | Trigger
    | Int(i: int)
    | Float(x: real)
    | Str(text: string)
    | File(path: string)
    | Enum(variant: string)
    | Bool(b: bool)
    | CssValue(amount: real, cssUnit: string)
    | Vec2(x2: real, y2: real)
    | Vec3(x3: real, y3: real, z3: real)
    | Color(red: real, green: real, blue: real, alpha: real)
    | Reference(target: string)

  datatype EventBehaviour = Append | Coalesce

  datatype ParamDto = ParamDto(
    value: ParamValue,
    defaultValue: Option<ParamValue>,
    eventBehaviour: EventBehaviour,
    readOnly: bool,
    constraints: string,
    control: string)

  datatype NodeMeta = NodeMeta(
    displayLabel: string,
    shortName: string,
    enabled: bool,
    canBeDisabled: bool,
    description: Option<string>,
    userPermissions: string,
    tags: seq<string>,
    presentation: string)

  datatype NodeMetaPatch = NodeMetaPatch(
    displayLabel: Option<string>,
    shortName: Option<string>,
    enabled: Option<bool>,
    canBeDisabled: Option<bool>,
    description: Option<Option<string>>,
    userPermissions: Option<string>,
    tags: Option<seq<string>>,
    presentation: Option<string>)

  datatype ParamPatch = ParamPatch(
    value: Option<ParamValue>,
    control: Option<string>,
    constraints: Option<string>)

  datatype NodeData = Parameter(param: ParamDto) | Plain(summary: string)

  datatype NodeDto = NodeDto(
    nodeId: NodeId,
    uuid: string,
    declId: string,
    nodeType: string,
    meta: NodeMeta,
    data: NodeData,
    children: seq<NodeId>)

  datatype ChildrenOrder = ChildrenOrder(parent: NodeId, children: seq<NodeId>)

  datatype GraphOp =
    | NodeCreatedOp(snapshot: NodeDto, createdUnder: Option<NodeId>)
    | SubtreeInserted(insertedRoot: NodeId, under: NodeId, nodes: seq<NodeDto>, parentChildrenAfter: seq<NodeId>)
    | SubtreeRemoved(removedRoot: NodeId, removedIds: seq<NodeId>, parentAfter: Option<ChildrenOrder>)
    | NodeMoved(
        moved: NodeId,
        oldParent: Option<NodeId>,
        newParent: Option<NodeId>,
        oldParentAfter: Option<ChildrenOrder>,
        newParentAfter: Option<ChildrenOrder>)
    | ChildrenReordered(reordered: ChildrenOrder)
    | NodeMetaPatched(patched: NodeId, metaPatch: NodeMetaPatch)
    | ParamPatched(owner: NodeId, patchedParam: NodeId, paramPatch: ParamPatch)
    | HistoryPatched(historyState: string)
    | LoggerPatched(records: seq<string>)

  datatype EventKind =
    | GraphTransaction(txId: nat, ops: seq<GraphOp>)
    | ParamChanged(param: NodeId, oldValue: ParamValue, newValue: ParamValue)
    | ParamControlChanged(controlled: NodeId, oldControl: string, newControl: string)
    | ParamConstraintsChanged(constrained: NodeId, oldConstraints: string, newConstraints: string)
    | ChildAdded(addedParent: NodeId, addedChild: NodeId)
    | ChildRemoved(removedParent: NodeId, removedChild: NodeId)
    | ChildReplaced(replacedParent: NodeId, replacedOld: NodeId, replacedNew: NodeId)
    | ChildMoved(movedChild: NodeId, movedFrom: NodeId, movedTo: NodeId)
    | ChildReordered(reorderedParent: NodeId, reorderedChild: NodeId)
    | NodeCreated(created: NodeId)
    | NodeDeleted(deleted: NodeId)
    | MetaChanged(changed: NodeId)
    | Custom(topic: string, origin: Option<NodeId>, payload: string)

  datatype Event = Event(time: EngineTime, kind: EventKind)

  datatype Scope = WholeGraph | Subtree(root: NodeId, maxDepth: u32)

  type Store = map<NodeId, NodeDto>
}
