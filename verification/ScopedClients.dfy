/** Clients that follow one subtree: what scoped replays keep right for them, and what they cannot. */
module ScopedClients {
  import opened UiTypes
  import opened StoreSemantics
  import opened Conflation
  import opened ReplayLog
  import opened ReplayDefaults
  import opened SubtreeScopes
  import opened SnapshotShape

  predicate InScope(nodes: seq<NodeDto>, scope: Scope, id: NodeId) {
    match scope
    case WholeGraph => true
    case Subtree(root, maxDepth) => Climbs(nodes, id, root, maxDepth)
  }

  /** What a client with this scope holds of a store. */
  function Restricted(s: Store, nodes: seq<NodeDto>, scope: Scope): Store {
    map id | id in s && InScope(nodes, scope, id) :: s[id]
  }

  lemma {:induction false} FeedbackInScope(s: Store, nodes: seq<NodeDto>, scope: Scope, e: Event)
    requires IsFeedback(e)
    ensures var told, r := EventForScope(nodes, scope, e), Restricted(s, nodes, scope);
            (match told case Some(x) => ApplyEvent(r, x) case None => r) == Restricted(ApplyEvent(s, e), nodes, scope)
  {
    var told, r := EventForScope(nodes, scope, e), Restricted(s, nodes, scope);
    assert told.Some? ==> told.value == e;
    match e.kind {
      case ParamChanged(p, _, _) =>
        assert EventCandidates(e.kind)[0] == p;
        assert told.None? <==> !InScope(nodes, scope, p);
      case ParamControlChanged(p, _, _) =>
        assert EventCandidates(e.kind)[0] == p;
        assert told.None? <==> !InScope(nodes, scope, p);
      case ParamConstraintsChanged(p, _, _) =>
        assert EventCandidates(e.kind)[0] == p;
        assert told.None? <==> !InScope(nodes, scope, p);
      case _ =>
    }
  }

  lemma {:induction false} ApplyFirst(s: Store, first: Event, rest: seq<Event>)
    ensures Apply(s, [first] + rest) == Apply(ApplyEvent(s, first), rest)
  {
    ApplyConcat(s, [first], rest);
    assert [first][..0] == [];
    assert Apply(s, [first]) == ApplyEvent(s, first);
  }

  /** A client that follows one subtree and is told of feedback about it holds what the server holds of it. */
  lemma {:induction false} ScopedFeedback(s: Store, nodes: seq<NodeDto>, scope: Scope, events: seq<Event>)
    requires forall e | e in events :: IsFeedback(e)
    ensures Apply(Restricted(s, nodes, scope), EventsForScope(nodes, scope, events))
            == Restricted(Apply(s, events), nodes, scope)
    decreases |events|
  {
    if events != [] {
      var first, rest := events[0], events[1..];
      assert events == [first] + rest && first in events;
      var r, later := Restricted(s, nodes, scope), EventsForScope(nodes, scope, rest);
      FeedbackInScope(s, nodes, scope, first);
      ApplyFirst(s, first, rest);
      ScopedFeedback(ApplyEvent(s, first), nodes, scope, rest);
      match EventForScope(nodes, scope, first) {
        case Some(x) => ApplyFirst(r, x, later);
        case None => assert [] + later == later;
      }
    }
  }

  // ---------------------------------------------------------------------
  // One operation, and one node
  // ---------------------------------------------------------------------

  predicate OpTold(nodes: seq<NodeDto>, scope: Scope, op: GraphOp) {
    match scope
    case WholeGraph => true
    case Subtree(root, maxDepth) => OpMatches(nodes, op, root, maxDepth)
  }

  /** Some event carries a snapshot of the node. */
  ghost predicate Inserts(events: seq<Event>, id: NodeId) {
    exists e :: e in events && EventInserts(e, id)
  }

  ghost predicate EventInserts(e: Event, id: NodeId) {
    e.kind.GraphTransaction? && OpsInsert(e.kind.ops, id)
  }

  ghost predicate OpsInsert(ops: seq<GraphOp>, id: NodeId) {
    exists op :: op in ops && OpInserts(op, id)
  }

  /** If the server has the node, the client has it exactly if it was `given` it, and then the same. */
  ghost predicate Follows(s: Store, r: Store, id: NodeId, given: bool) {
    id in s ==> (id in r <==> given) && (given ==> r[id] == s[id])
  }

  /** Told of the operation, the client keeps following the server at every node. */
  lemma {:induction false} ToldOp(s: Store, r: Store, op: GraphOp, id: NodeId, given: bool)
    requires Follows(s, r, id, given)
    ensures Follows(ApplyOp(s, op), ApplyOp(r, op), id, given || OpInserts(op, id))
  {
    match op {
      case SubtreeInserted(_, under, nodes, _) =>
        InsertedAt(s, r, nodes, id);
        InsertedAt(r, s, nodes, id);
      case _ =>
    }
  }

  predicate Concerns(op: GraphOp, id: NodeId) {
    exists i :: 0 <= i < |OpCandidates(op)| && OpCandidates(op)[i] == id
  }

  /** A node in the scope that an operation inserts or changes is why the client is told. */
  lemma {:induction false} UntoldOp(s: Store, nodes: seq<NodeDto>, scope: Scope, op: GraphOp, id: NodeId)
    requires !OpTold(nodes, scope, op) && InScope(nodes, scope, id)
    ensures !Concerns(op, id)
  {
  }

  /** An operation leaves alone, or removes, every node that is not among those it is judged by. */
  lemma {:induction false} UnconcernedNode(s: Store, op: GraphOp, id: NodeId)
    requires !Concerns(op, id)
    ensures !OpInserts(op, id)
    ensures id in ApplyOp(s, op) ==> id in s && ApplyOp(s, op)[id] == s[id]
  {
    var candidates := OpCandidates(op);
    assert forall i | 0 <= i < |candidates| :: candidates[i] != id;
    match op {
      case NodeCreatedOp(snapshot, _) => assert candidates[0] == snapshot.nodeId;
      case SubtreeInserted(_, under, inserted, _) =>
        assert candidates[0] == under;
        assert forall i | 0 <= i < |inserted| :: candidates[i + 2] == inserted[i].nodeId;
        InsertedAt(s, s, inserted, id);
      case SubtreeRemoved(_, _, parentAfter) =>
        assert parentAfter.Some? ==> candidates[0] == parentAfter.value.parent;
      case NodeMoved(node, oldParent, newParent, oldAfter, newAfter) =>
        var start := 1 + |Present(oldParent)| + |Present(newParent)|;
        assert oldAfter.Some? ==> candidates[start] == oldAfter.value.parent;
        assert newAfter.Some? ==> candidates[start + |PatchParent(oldAfter)|] == newAfter.value.parent;
      case ChildrenReordered(order) => assert candidates[0] == order.parent;
      case NodeMetaPatched(node, _) => assert candidates[0] == node;
      case ParamPatched(_, p, _) => assert candidates[1] == p;
      case _ =>
    }
  }

  lemma {:induction false} ScopedOp(s: Store, r: Store, nodes: seq<NodeDto>, scope: Scope, op: GraphOp, id: NodeId,
                                    given: bool)
    requires Follows(s, r, id, given) && InScope(nodes, scope, id)
    ensures Follows(ApplyOp(s, op), if OpTold(nodes, scope, op) then ApplyOp(r, op) else r, id,
                    given || OpInserts(op, id))
  {
    if OpTold(nodes, scope, op) {
      ToldOp(s, r, op, id, given);
    } else {
      UntoldOp(s, nodes, scope, op, id);
      UnconcernedNode(s, op, id);
    }
  }

  // ---------------------------------------------------------------------
  // Whole streams
  // ---------------------------------------------------------------------

  function ToldOps(nodes: seq<NodeDto>, scope: Scope, ops: seq<GraphOp>): seq<GraphOp> {
    match scope
    case WholeGraph => ops
    case Subtree(root, maxDepth) => MatchingOps(nodes, ops, root, maxDepth)
  }

  lemma {:induction false} ToldFirst(nodes: seq<NodeDto>, scope: Scope, ops: seq<GraphOp>)
    requires ops != []
    ensures ToldOps(nodes, scope, ops)
            == (if OpTold(nodes, scope, ops[0]) then [ops[0]] else []) + ToldOps(nodes, scope, ops[1..])
  {
  }

  lemma {:induction false} ApplyFirstOp(s: Store, op: GraphOp, rest: seq<GraphOp>)
    ensures ApplyOps(s, [op] + rest) == ApplyOps(ApplyOp(s, op), rest)
  {
    ApplyOpsConcat(s, [op], rest);
    ApplyOneOp(s, op);
  }

  lemma {:induction false} ScopedOps(s: Store, r: Store, nodes: seq<NodeDto>, scope: Scope, ops: seq<GraphOp>,
                                     id: NodeId, given: bool)
    requires Follows(s, r, id, given) && InScope(nodes, scope, id)
    ensures Follows(ApplyOps(s, ops), ApplyOps(r, ToldOps(nodes, scope, ops)), id, given || OpsInsert(ops, id))
    decreases |ops|
  {
    hide Follows, OpTold, InScope, OpInserts, ApplyOp;
    if ops == [] {
      assert ToldOps(nodes, scope, ops) == [];
    } else {
      var first, rest := ops[0], ops[1..];
      var told, later := OpTold(nodes, scope, first), ToldOps(nodes, scope, rest);
      var r1 := if told then ApplyOp(r, first) else r;
      assert ops == [first] + rest;
      ScopedOp(s, r, nodes, scope, first, id, given);
      ScopedOps(ApplyOp(s, first), r1, nodes, scope, rest, id, given || OpInserts(first, id));
      ToldFirst(nodes, scope, ops);
      ApplyFirstOp(s, first, rest);
      ApplyFirstOp(r, first, later);
      assert [] + later == later;
      assert OpsInsert(ops, id) <==> OpInserts(first, id) || OpsInsert(rest, id);
    }
  }

  lemma {:induction false} ScopedEvent(s: Store, r: Store, nodes: seq<NodeDto>, scope: Scope, e: Event, id: NodeId,
                                       given: bool)
    requires Follows(s, r, id, given) && InScope(nodes, scope, id)
    ensures var told := EventForScope(nodes, scope, e);
            Follows(ApplyEvent(s, e), match told case Some(x) => ApplyEvent(r, x) case None => r, id,
                    given || EventInserts(e, id))
  {
    if e.kind.GraphTransaction? {
      ScopedOps(s, r, nodes, scope, e.kind.ops, id, given);
      assert ApplyOps(r, []) == r;
    } else {
      var told := EventForScope(nodes, scope, e);
      assert told.Some? ==> told.value == e;
      if |EventCandidates(e.kind)| >= 1 && EventCandidates(e.kind)[0] == id {
        assert InScope(nodes, scope, EventCandidates(e.kind)[0]);
        assert told.Some?;
      }
    }
  }

  /** A client that is told what concerns its scope has, of the scope, what it had and
      what came as a snapshot: nothing else, and all of it as the server has it. */
  lemma {:induction false} ScopedNode(s: Store, r: Store, nodes: seq<NodeDto>, scope: Scope, events: seq<Event>,
                                      id: NodeId, given: bool)
    requires Follows(s, r, id, given) && InScope(nodes, scope, id)
    ensures Follows(Apply(s, events), Apply(r, EventsForScope(nodes, scope, events)), id, given || Inserts(events, id))
    decreases |events|
  {
    hide Follows, InScope, EventInserts, ApplyEvent, EventForScope;
    if events != [] {
      var first, rest := events[0], events[1..];
      var told, later := EventForScope(nodes, scope, first), EventsForScope(nodes, scope, rest);
      var r1 := match told case Some(x) => ApplyEvent(r, x) case None => r;
      assert events == [first] + rest;
      ScopedEvent(s, r, nodes, scope, first, id, given);
      ScopedNode(ApplyEvent(s, first), r1, nodes, scope, rest, id, given || EventInserts(first, id));
      ApplyFirst(s, first, rest);
      if told.Some? {
        ApplyFirst(r, told.value, later);
      } else {
        assert [] + later == later;
      }
      assert Inserts(events, id) <==> EventInserts(first, id) || Inserts(rest, id);
    }
  }

  /** The client holds every node of its scope as the server does. */
  ghost predicate HoldsScope(r: Store, s: Store, nodes: seq<NodeDto>, scope: Scope) {
    forall id | id in s && InScope(nodes, scope, id) :: id in r && r[id] == s[id]
  }

  /** What the client holds is part of what the server held. */
  ghost predicate PartOf(r: Store, s: Store) {
    forall id | id in r :: id in s && r[id] == s[id]
  }

  /** Every node of the scope was held before or comes as a snapshot. */
  ghost predicate NothingMovedIn(r: Store, s: Store, nodes: seq<NodeDto>, scope: Scope, events: seq<Event>) {
    forall id | id in s && InScope(nodes, scope, id) :: id in r || Inserts(events, id)
  }

  /** A client of one subtree ends with the server's scope exactly if every node in it was held before or came as
      a snapshot: the one thing that fails is a node that was elsewhere and moved in, alone or below another. */
  lemma {:induction false} ScopeIsHeldExactly(s: Store, r: Store, nodes: seq<NodeDto>, scope: Scope, events: seq<Event>)
    requires PartOf(r, s)
    ensures var now, held := Apply(s, events), Apply(r, EventsForScope(nodes, scope, events));
            HoldsScope(held, now, nodes, scope) <==> NothingMovedIn(r, now, nodes, scope, events)
  {
    var now, held := Apply(s, events), Apply(r, EventsForScope(nodes, scope, events));
    forall id | id in now && InScope(nodes, scope, id)
      ensures id in held && held[id] == now[id] <==> id in r || Inserts(events, id)
    {
      ScopedNode(s, r, nodes, scope, events, id, id in r);
    }
  }

  lemma {:induction false} RestrictedAgree(a: Store, b: Store, nodes: seq<NodeDto>, scope: Scope)
    requires Agree(a, b)
    ensures Agree(Restricted(a, nodes, scope), Restricted(b, nodes, scope))
  {
  }

  /** The client holds every node of its scope as the server does, remembered defaults aside. */
  ghost predicate AgreesOnScope(r: Store, s: Store, nodes: seq<NodeDto>, scope: Scope) {
    forall id | id in s && InScope(nodes, scope, id) :: id in r && EraseDefault(r[id]) == EraseDefault(s[id])
  }

  lemma {:induction false} ScopeAgreesExactly(s: Store, r: Store, server: Store, nodes: seq<NodeDto>, scope: Scope,
                                              replay: seq<Event>)
    requires PartOf(r, s) && Agree(Apply(s, replay), server)
    ensures AgreesOnScope(Apply(r, EventsForScope(nodes, scope, replay)), server, nodes, scope)
            <==> NothingMovedIn(r, server, nodes, scope, replay)
  {
    var now, held := Apply(s, replay), Apply(r, EventsForScope(nodes, scope, replay));
    hide Apply, EventsForScope, InScope, EraseDefault, Inserts;
    forall id | id in server && InScope(nodes, scope, id)
      ensures id in held && EraseDefault(held[id]) == EraseDefault(server[id]) <==> id in r || Inserts(replay, id)
    {
      ScopedNode(s, r, nodes, scope, replay, id, id in r);
      assert EraseDefault(now[id]) == EraseDefault(server[id]);
    }
  }

  /** Scoped replay is complete, defaults aside, exactly if every node
      of the scope was held before or comes as a snapshot. */
  lemma {:induction false} ScopedReplayIsComplete(base: Store, batches: seq<seq<Event>>, capacity: nat, cursor: Cursor,
                                                  r: Store, nodes: seq<NodeDto>, scope: Scope)
    requires Increasing(History(batches)) && capacity >= 1
    requires Reaches(PublishAll(Log(base, EMPTY), batches, capacity).ring, cursor)
    requires PartOf(r, Apply(base, UpTo(History(batches), cursor)))
    ensures var log := PublishAll(Log(base, EMPTY), batches, capacity);
            var replay := After(log.ring.events, cursor);
            AgreesOnScope(Apply(r, EventsForScope(nodes, scope, replay)), log.store, nodes, scope)
            <==> NothingMovedIn(r, log.store, nodes, scope, replay)
  {
    var log := PublishAll(Log(base, EMPTY), batches, capacity);
    ReplayIsComplete(base, batches, capacity, cursor);
    ScopeAgreesExactly(Apply(base, UpTo(History(batches), cursor)), r, log.store, nodes, scope,
                       After(log.ring.events, cursor));
  }

  /** ... and then the client has nothing else in it, if no graph transaction is retained after the cursor. */
  lemma {:induction false} ScopedFeedbackIsComplete(base: Store, batches: seq<seq<Event>>, capacity: nat,
                                                    cursor: Cursor, nodes: seq<NodeDto>, scope: Scope)
    requires Increasing(History(batches)) && capacity >= 1
    requires Reaches(PublishAll(Log(base, EMPTY), batches, capacity).ring, cursor)
    requires forall e | e in After(PublishAll(Log(base, EMPTY), batches, capacity).ring.events, cursor) :: IsFeedback(e)
    ensures var log := PublishAll(Log(base, EMPTY), batches, capacity);
            var client := Restricted(Apply(base, UpTo(History(batches), cursor)), nodes, scope);
            Agree(Apply(client, EventsForScope(nodes, scope, After(log.ring.events, cursor))),
                  Restricted(log.store, nodes, scope))
  {
    var log := PublishAll(Log(base, EMPTY), batches, capacity);
    var client, replay := Apply(base, UpTo(History(batches), cursor)), After(log.ring.events, cursor);
    ReplayIsComplete(base, batches, capacity, cursor);
    ScopedFeedback(client, nodes, scope, replay);
    RestrictedAgree(Apply(client, replay), log.store, nodes, scope);
  }

  function Folder(id: NodeId, children: seq<NodeId>): NodeDto {
    NodeDto(id, "", "", "folder", NodeMeta("", "", true, true, None, "", [], ""), Plain(""), children)
  }

  const ELSEWHERE: Store := map[1 := Folder(1, [2, 3]), 2 := Folder(2, []), 3 := Folder(3, [])]
  const MOVED_IN: Store := map[1 := Folder(1, [2]), 2 := Folder(2, [3]), 3 := Folder(3, [])]
  const LISTING := [Folder(1, [2]), Folder(2, [3]), Folder(3, [])]
  const MOVE := NodeMoved(3, Some(1), Some(2), Some(ChildrenOrder(1, [2])), Some(ChildrenOrder(2, [3])))
  const BELOW_TWO := Subtree(2, 8)

  lemma {:induction false} MoveIsTold(time: EngineTime)
    ensures InScope(LISTING, BELOW_TWO, 3)
    ensures var move := Event(time, GraphTransaction(0, [MOVE]));
            EventForScope(LISTING, BELOW_TWO, move) == Some(move)
  {
    assert LISTING[1..][0] == Folder(2, [3]);
    assert ParentOf(LISTING[1..], 3) == Some(2);
    assert ParentOf(LISTING, 3) == Some(2);
    assert Climbs(LISTING, 2, 2, 7);
    assert Climbs(LISTING, 3, 2, 8);
    assert OpCandidates(MOVE)[0] == 3;
    assert MatchingOps(LISTING, [MOVE][1..], 2, 8) == [];
    assert MatchingOps(LISTING, [MOVE], 2, 8) == [MOVE];
  }

  lemma {:induction false} MoveBringsNothing(time: EngineTime)
    ensures !Inserts([Event(time, GraphTransaction(0, [MOVE]))], 3)
    ensures Apply(ELSEWHERE, [Event(time, GraphTransaction(0, [MOVE]))]) == MOVED_IN
  {
    assert [MOVE][..0] == [];
    ApplyOneOp(ELSEWHERE, MOVE);
    SnocApply(ELSEWHERE, [], Event(time, GraphTransaction(0, [MOVE])));
    assert [] + [Event(time, GraphTransaction(0, [MOVE]))] == [Event(time, GraphTransaction(0, [MOVE]))];
  }

  /** A node that moves into the scope is announced by its id alone: the client is told, and still does not have it. */
  lemma {:induction false} MoveIntoScopeIsMissed(time: EngineTime)
    ensures var move, client := Event(time, GraphTransaction(0, [MOVE])), map[2 := Folder(2, [])];
            && ApplyEvent(ELSEWHERE, move) == MOVED_IN
            && 3 in Restricted(MOVED_IN, LISTING, BELOW_TWO)
            && EventForScope(LISTING, BELOW_TWO, move) == Some(move)
            && 3 !in ApplyEvent(client, move)
            && PartOf(client, ELSEWHERE)
            && !NothingMovedIn(client, MOVED_IN, LISTING, BELOW_TWO, [move])
            && !HoldsScope(Apply(client, EventsForScope(LISTING, BELOW_TWO, [move])), MOVED_IN, LISTING, BELOW_TWO)
  {
    var move, client: Store := Event(time, GraphTransaction(0, [MOVE])), map[2 := Folder(2, [])];
    MoveIsTold(time);
    MoveBringsNothing(time);
    ApplyOneOp(ELSEWHERE, MOVE);
    ApplyOneOp(client, MOVE);
    hide EventsForScope, EventForScope, InScope, Apply, Inserts, ApplyOps;
    ScopeIsHeldExactly(ELSEWHERE, client, LISTING, BELOW_TWO, [move]);
  }
}
