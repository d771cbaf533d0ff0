/** The UI read model: a node store patched in place, a bounded conflating event ring and an assembled snapshot. */
module UiReadModel {
  import opened UiTypes
  import opened StoreSemantics
  import opened Conflation
  import opened FeedbackCoalescer
  import opened ReplayLog
  import opened SubtreeScopes
  import opened SnapshotShape
  import opened ScopedEvents

  const DEFAULT_EVENT_CAPACITY := 8192

  datatype Header = Header(at: EngineTime, history: string, userContexts: string, projectFile: string)

  datatype Snapshot = Snapshot(header: Header, nodes: seq<NodeDto>, schema: string)

  datatype ReplaceReason = Initial | EngineEvents | ProjectReplaced

  datatype ResyncReason = CursorAheadOfServerTime | CursorOutOfRetentionWindow

  datatype Replay =
    | Batch(from: Option<EngineTime>, to: Option<EngineTime>, events: seq<Event>)
    | ResyncRequired(cursor: EngineTime, time: EngineTime, reason: ResyncReason)

  function NodesToStore(nodes: seq<NodeDto>): Store {
    InsertNodes(map[], nodes)
  }

  /** The time of the latest event of a non-empty batch. */
  function LatestTime(events: seq<Event>): (t: EngineTime)
    requires events != []
    ensures exists e :: e in events && e.time == t
    ensures forall e | e in events :: e.time.AtMost(t)
    decreases |events|
  {
    if |events| == 1 then events[0].time
    else LaterOf(LatestTime(events[..|events| - 1]), events[|events| - 1].time)
  }

  function Advance(latest: Option<EngineTime>, t: EngineTime): Option<EngineTime> {
    match latest
    case None => Some(t)
    case Some(known) => Some(LaterOf(known, t))
  }

  /** The event head never goes back. */
  lemma {:induction false} HeadOnlyAdvances(latest: Option<EngineTime>, t: EngineTime)
    ensures var head := Advance(latest, t);
            && head.Some? && t.AtMost(head.value)
            && (latest.Some? ==> latest.value.AtMost(head.value))
            && (head == Some(t) || head == latest)
  {
  }

  lemma {:induction false} OnceMakesAStore(nodes: seq<NodeDto>)
    requires Once(nodes)
    ensures Enumerates(nodes, NodesToStore(nodes))
    decreases |nodes|
  {
    if nodes != [] {
      var front, last := nodes[..|nodes| - 1], nodes[|nodes| - 1];
      OnceMakesAStore(front);
      var s, t := NodesToStore(front), NodesToStore(nodes);
      assert forall n | n in nodes :: n in front || n == last;
      assert forall n | n in front :: n in nodes && n.nodeId != last.nodeId;
      forall k | k in t
        ensures t[k] in nodes
      {
        if k != last.nodeId {
          assert s[k] in front;
        }
      }
    }
  }

  /** What a client is owed: everything retained after its cursor, cut down to its scope. */
  function ReplayedEvents(nodes: seq<NodeDto>, ring: seq<Event>, from: Cursor, scope: Scope): seq<Event> {
    EventsForScope(nodes, scope, After(ring, from))
  }

  /** Why a replay after this cursor is refused, if it is. */
  function Refusal(now: EngineTime, ring: seq<Event>, from: Cursor): Option<ResyncReason> {
    if from.Some? && now.Before(from.value) then Some(CursorAheadOfServerTime)
    else if from.Some? && ring != [] && from.value.Before(ring[0].time) then Some(CursorOutOfRetentionWindow)
    else None
  }

  /** A cursor ahead of the clock is refused as such, and otherwise one before the oldest retained event as out of the
      window; no other is, and none without a cursor. */
  lemma {:induction false} RefusedAs(now: EngineTime, ring: seq<Event>, from: Cursor)
    ensures Refusal(now, ring, from) == Some(CursorAheadOfServerTime) <==> from.Some? && now.Before(from.value)
    ensures Refusal(now, ring, from) == Some(CursorOutOfRetentionWindow)
            <==> from.Some? && from.value.AtMost(now) && ring != [] && !ring[0].time.AtMost(from.value)
  {
  }

  /** The replay of a ring, from its first event on. */
  lemma {:induction false} ReplayHead(nodes: seq<NodeDto>, ring: seq<Event>, from: Cursor, scope: Scope)
    requires ring != []
    ensures var seen := Sees(from, ring[0].time);
            var head := EventForScope(nodes, scope, ring[0]);
            ReplayedEvents(nodes, ring, from, scope)
            == (if seen || head.None? then [] else [head.value]) + ReplayedEvents(nodes, ring[1..], from, scope)
  {
  }

  lemma {:induction false} ReplayNothing(nodes: seq<NodeDto>, from: Cursor, scope: Scope)
    ensures ReplayedEvents(nodes, [], from, scope) == []
  {
  }

  /** A snapshot that lags in parameter payloads replays what any listing of the live store would. */
  lemma {:induction false} LaggingSnapshotReplaysLive(nodes: seq<NodeDto>, s: Store, ring: seq<Event>, from: Cursor,
                                                      scope: Scope)
    requires Enumerates(nodes, NodesToStore(nodes)) && SameShape(NodesToStore(nodes), s)
    ensures forall live: seq<NodeDto> | Enumerates(live, s) && OneParentEach(live) ::
              ReplayedEvents(nodes, ring, from, scope) == ReplayedEvents(live, ring, from, scope)
  {
    var unseen := After(ring, from);
    forall live: seq<NodeDto> | Enumerates(live, s) && OneParentEach(live)
      ensures ReplayedEvents(nodes, ring, from, scope) == ReplayedEvents(live, ring, from, scope)
    {
      SameShapeEvents(nodes, NodesToStore(nodes), live, s, scope, unseen);
    }
  }

  /** Of the events other than transactions, those that name a node of the subtree are told and no others. */
  ghost predicate ToldInSubtree(nodes: seq<NodeDto>, scope: Scope, events: seq<Event>, told: seq<Event>)
    requires scope.Subtree?
  {
    forall e: Event | !e.kind.GraphTransaction? ::
      e in told <==> e in events && EventInSubtree(nodes, scope.root, scope.maxDepth, e.kind)
  }

  lemma {:induction false} ReplayedInSubtree(nodes: seq<NodeDto>, ring: seq<Event>, from: Cursor, scope: Scope)
    requires scope.Subtree?
    ensures ToldInSubtree(nodes, scope, After(ring, from), ReplayedEvents(nodes, ring, from, scope))
  {
    forall e: Event | !e.kind.GraphTransaction?
      ensures e in ReplayedEvents(nodes, ring, from, scope)
              <==> e in After(ring, from) && EventInSubtree(nodes, scope.root, scope.maxDepth, e.kind)
    {
      ToldIfInSubtree(nodes, scope.root, scope.maxDepth, After(ring, from), e);
    }
  }

  class UiReadModel {
    var current: Snapshot
    var events: seq<Event>
    /** The time of the last event that the ring has evicted since it was last cleared. */
    ghost var gone: Option<EngineTime>
    const eventCapacity: nat
    var latestEventTime: Option<EngineTime>
    var nodeStore: Store
    var header: Header
    var schema: string

    /** The store is keyed by node id, and the assembled snapshot lags behind it in parameter payloads only. */
    ghost predicate Valid()
      reads this
    {
      && eventCapacity >= 1
      && |events| <= eventCapacity
      && KeysMatch(nodeStore)
      && Enumerates(current.nodes, NodesToStore(current.nodes))
      && SameShape(NodesToStore(current.nodes), nodeStore)
    }

    constructor FromEngine(snapshot: Snapshot, lastLogged: Option<EngineTime>)
      requires Once(snapshot.nodes)
      ensures Valid()
      ensures current == snapshot && nodeStore == NodesToStore(snapshot.nodes)
      ensures events == [] && gone == None && latestEventTime == lastLogged
      ensures header == snapshot.header && schema == snapshot.schema
    {
      current := snapshot;
      events := [];
      gone := None;
      eventCapacity := DEFAULT_EVENT_CAPACITY;
      latestEventTime := lastLogged;
      nodeStore := NodesToStore(snapshot.nodes);
      header := snapshot.header;
      schema := snapshot.schema;
      OnceMakesAStore(snapshot.nodes);
    }

    method ReplaceFromEngine(snapshot: Snapshot, lastLogged: Option<EngineTime>, reason: ReplaceReason)
      requires Valid() && Once(snapshot.nodes)
      modifies this
      ensures Valid()
      ensures current == snapshot && nodeStore == NodesToStore(snapshot.nodes)
      ensures Ring(events, gone) == if reason.EngineEvents? then Ring(old(events), old(gone)) else EMPTY
      ensures latestEventTime == lastLogged && header == snapshot.header && schema == snapshot.schema
    {
      OnceMakesAStore(snapshot.nodes);
      nodeStore := NodesToStore(snapshot.nodes);
      header := snapshot.header;
      schema := snapshot.schema;
      current := snapshot;
      latestEventTime := lastLogged;
      if reason.ProjectReplaced? || reason.Initial? {
        events := [];
        gone := None;
      }
    }

    method SetProjectFile(projectFile: string)
      requires Valid()
      modifies this
      ensures Valid()
      ensures nodeStore == old(nodeStore) && events == old(events) && gone == old(gone) && schema == old(schema)
      ensures header == old(header).(projectFile := projectFile)
      ensures current.header == header && current.schema == schema && Enumerates(current.nodes, nodeStore)
      ensures latestEventTime == Advance(old(latestEventTime), header.at)
    {
      header := header.(projectFile := projectFile);
      RebuildCurrentFromStore();
    }

    /** The store's nodes in some order. */
    method ListStore() returns (nodes: seq<NodeDto>)
      requires KeysMatch(nodeStore)
      ensures Enumerates(nodes, nodeStore)
    {
      nodes := [];
      var todo := nodeStore.Keys;
      while todo != {}
        invariant todo <= nodeStore.Keys
        invariant forall n | n in nodes :: n.nodeId in nodeStore && n.nodeId !in todo && nodeStore[n.nodeId] == n
        invariant forall k | k in nodeStore && k !in todo :: nodeStore[k] in nodes
        invariant Once(nodes)
        decreases |todo|
      {
        var k :| k in todo;
        todo := todo - {k};
        var listed := nodes + [nodeStore[k]];
        assert forall n | n in nodes :: n in listed;
        nodes := listed;
      }
    }

    method RebuildCurrentFromStore()
      requires eventCapacity >= 1 && |events| <= eventCapacity && KeysMatch(nodeStore)
      modifies this`current, this`latestEventTime
      ensures Valid()
      ensures current.header == header && current.schema == schema && Enumerates(current.nodes, nodeStore)
      ensures latestEventTime == Advance(old(latestEventTime), header.at)
    {
      var nodes := ListStore();
      current := Snapshot(header, nodes, schema);
      latestEventTime := Advance(latestEventTime, header.at);
      OnceMakesAStore(nodes);
    }

    /** Appends to the ring, judging every event against the store as it is now. */
    method AppendEvents(batch: seq<Event>)
      requires eventCapacity >= 1 && |events| <= eventCapacity
      modifies this`events, this`gone
      ensures Ring(events, gone) == AppendAll(nodeStore, Ring(old(events), old(gone)), batch, eventCapacity)
      ensures |events| <= eventCapacity
    {
      ghost var before := Ring(events, gone);
      for i := 0 to |batch|
        invariant Ring(events, gone) == AppendAll(nodeStore, before, batch[..i], eventCapacity)
        invariant |events| <= eventCapacity
      {
        assert batch[..i + 1][..i] == batch[..i];
        ghost var ring := Ring(events, gone);
        AppendRetained(batch[i]);
        ghost var kept := events;
        while |events| > eventCapacity
          invariant |kept| <= eventCapacity + 1 && |events| <= |kept|
          invariant events == kept || (|events| == eventCapacity
                                       && Ring(events, gone) == AppendOne(nodeStore, ring, batch[i], eventCapacity))
          invariant events == kept ==> gone == ring.gone
        {
          gone := Some(events[0].time);
          events := events[1..];
        }
      }
      assert batch[..|batch|] == batch;
    }

    /** Replaces the previous feedback of the same parameter in the trailing coalescable run. */
    method AppendRetained(event: Event)
      modifies this`events
      ensures events == Retain(nodeStore, old(events), event)
      ensures Takes(nodeStore, old(events), event, events)
    {
      hide Takes;
      RetainExactly(nodeStore, events, event);
      var param := CoalescableParam(nodeStore, event);
      if param.None? {
        events := events + [event];
        return;
      }
      var previousIndex := -1;
      var index := |events|;
      while index > 0
        invariant 0 <= index <= |events|
        invariant previousIndex == -1
        invariant PreviousIndex(nodeStore, events, param.value)
                  == PreviousIndex(nodeStore, events[..index], param.value)
      {
        index := index - 1;
        assert events[..index + 1][..index] == events[..index];
        var existing := CoalescableParam(nodeStore, events[index]);
        if existing.None? {
          break;
        }
        if existing == param {
          previousIndex := index;
          break;
        }
      }
      var latest := event;
      if previousIndex >= 0 {
        var previous := events[previousIndex];
        events := RemoveAt(events, previousIndex);
        latest := KeepOldValue(latest, previous);
      }
      events := events + [latest];
    }

    method ApplyChildrenOrder(order: Option<ChildrenOrder>)
      modifies this`nodeStore
      ensures nodeStore == SetOrder(old(nodeStore), order)
    {
      if order.Some? && order.value.parent in nodeStore {
        var parent := order.value.parent;
        nodeStore := nodeStore[parent := nodeStore[parent].(children := order.value.children)];
      }
    }

    method ApplyGraphOp(op: GraphOp)
      modifies this`nodeStore
      ensures nodeStore == ApplyOp(old(nodeStore), op)
      ensures op.NodeMetaPatched? && op.patched in nodeStore ==>
                MetaFieldsSet(old(nodeStore)[op.patched].meta, op.metaPatch, nodeStore[op.patched].meta)
      ensures op.ParamPatched? && HoldsParam(nodeStore, op.patchedParam) ==>
                ParamFieldsSet(old(nodeStore)[op.patchedParam].data.param, op.paramPatch,
                               nodeStore[op.patchedParam].data.param)
    {
      match op {
        case NodeCreatedOp(snapshot, _) =>
          nodeStore := nodeStore[snapshot.nodeId := snapshot];
        case SubtreeInserted(_, under, nodes, childrenAfter) =>
          for i := 0 to |nodes|
            invariant nodeStore == InsertNodes(old(nodeStore), nodes[..i])
          {
            assert nodes[..i + 1][..i] == nodes[..i];
            nodeStore := nodeStore[nodes[i].nodeId := nodes[i]];
          }
          assert nodes[..|nodes|] == nodes;
          ApplyChildrenOrder(Some(ChildrenOrder(under, childrenAfter)));
        case SubtreeRemoved(_, removedIds, parentAfter) =>
          for i := 0 to |removedIds|
            invariant nodeStore == RemoveNodes(old(nodeStore), removedIds[..i])
          {
            nodeStore := nodeStore - {removedIds[i]};
            assert nodeStore == RemoveNodes(old(nodeStore), removedIds[..i + 1]);
          }
          assert removedIds[..|removedIds|] == removedIds;
          ApplyChildrenOrder(parentAfter);
        case NodeMoved(_, _, _, oldAfter, newAfter) =>
          ApplyChildrenOrder(oldAfter);
          ApplyChildrenOrder(newAfter);
        case ChildrenReordered(order) =>
          ApplyChildrenOrder(Some(order));
        case NodeMetaPatched(node, patch) =>
          if node in nodeStore {
            nodeStore := nodeStore[node := nodeStore[node].(meta := PatchMeta(nodeStore[node].meta, patch))];
          }
        case ParamPatched(_, param, patch) =>
          if HoldsParam(nodeStore, param) {
            nodeStore := SetParam(nodeStore, param, PatchParam(nodeStore[param].data.param, patch));
          }
        case HistoryPatched(_) =>
        case LoggerPatched(_) =>
      }
    }

    method ApplyEventsToStore(batch: seq<Event>)
      modifies this`nodeStore
      ensures nodeStore == Apply(old(nodeStore), batch)
    {
      for i := 0 to |batch|
        invariant nodeStore == Apply(old(nodeStore), batch[..i])
      {
        assert batch[..i + 1][..i] == batch[..i];
        ghost var before := nodeStore;
        match batch[i].kind {
          case GraphTransaction(_, ops) =>
            for j := 0 to |ops|
              invariant nodeStore == ApplyOps(before, ops[..j])
            {
              assert ops[..j + 1][..j] == ops[..j];
              ApplyGraphOp(ops[j]);
            }
            assert ops[..|ops|] == ops;
          case ParamChanged(param, oldValue, newValue) =>
            if HoldsParam(nodeStore, param) {
              var dto := nodeStore[param].data.param;
              if dto.defaultValue.None? && oldValue != newValue {
                dto := dto.(defaultValue := Some(oldValue));
              }
              dto := dto.(value := newValue);
              if dto.defaultValue == Some(newValue) {
                dto := dto.(defaultValue := None);
              }
              nodeStore := SetParam(nodeStore, param, dto);
            }
          case ParamControlChanged(param, _, control) =>
            if HoldsParam(nodeStore, param) {
              nodeStore := SetParam(nodeStore, param, nodeStore[param].data.param.(control := control));
            }
          case ParamConstraintsChanged(param, _, constraints) =>
            if HoldsParam(nodeStore, param) {
              nodeStore := SetParam(nodeStore, param, nodeStore[param].data.param.(constraints := constraints));
            }
          case _ =>
        }
      }
      assert batch[..|batch|] == batch;
    }

    /** Publishes one captured batch. The ring is extended before the store moves on, and the snapshot is only
        reassembled when the batch changes structure or metadata. */
    method ApplyEventCapture(batch: seq<Event>, history: string, userContexts: string)
      requires Valid()
      modifies this
      ensures Valid()
      ensures Log(nodeStore, Ring(events, gone))
              == Publish(Log(old(nodeStore), Ring(old(events), old(gone))), batch, eventCapacity)
      ensures Ring(events, gone) == AppendAll(old(nodeStore), Ring(old(events), old(gone)), batch, eventCapacity)
      ensures nodeStore == Apply(old(nodeStore), batch)
      ensures schema == old(schema)
      ensures latestEventTime == if batch == [] then old(latestEventTime)
                                 else Advance(old(latestEventTime), LatestTime(batch))
      ensures (forall e | e in batch :: !RequiresRebuild(e)) ==>
                && current == old(current)
                && header == old(header).(history := history, userContexts := userContexts)
      ensures (exists e :: e in batch && RequiresRebuild(e)) ==>
                && header == old(header).(history := history, userContexts := userContexts, at := LatestTime(batch))
                && current.header == header
                && Enumerates(current.nodes, nodeStore)
    {
      hide AppendOne, Retain, Evict, ApplyEvent, Enumerates, KeysMatch;
      header := header.(history := history, userContexts := userContexts);
      if batch == [] {
        return;
      }
      AppendEvents(batch);
      var hasStructural := exists e :: e in batch && RequiresRebuild(e);
      ApplyEventsToStore(batch);
      ApplyKeepsKeys(old(nodeStore), batch);
      var at := LatestTime(batch);
      if hasStructural {
        header := header.(at := at);
        RebuildCurrentFromStore();
      } else {
        ValueEventsKeepShape(old(nodeStore), batch);
        latestEventTime := Advance(latestEventTime, at);
      }
    }

    /** A snapshot for one scope: the nodes as last assembled, under the header as it is now. */
    method SnapshotForScope(scope: Scope) returns (out: Snapshot)
      requires Valid()
      ensures out.header == header && out.schema == current.schema
      ensures scope.WholeGraph? ==> out.nodes == current.nodes
      ensures forall live: seq<NodeDto> | scope.Subtree? && Enumerates(live, nodeStore) ::
                EraseAll(out.nodes) == EraseAll(DepthFirst(live, scope.root, scope.maxDepth))
    {
      var nodes := FilterSnapshotNodes(current.nodes, scope);
      out := Snapshot(header, nodes, current.schema);
      forall live: seq<NodeDto> | scope.Subtree? && Enumerates(live, nodeStore)
        ensures EraseAll(nodes) == EraseAll(DepthFirst(live, scope.root, scope.maxDepth))
      {
        SameShapeDepthFirst(current.nodes, NodesToStore(current.nodes), live, nodeStore, scope.root, scope.maxDepth);
      }
    }

    /** Replays what is retained after a cursor. A cursor outside the retention window must resync. The scope is
        tested on the lagging snapshot, and answers as any listing of the live store would. */
    method ReplayFrom(from: Cursor, scope: Scope) returns (r: Replay)
      requires Valid()
      ensures var now := if latestEventTime.Some? then latestEventTime.value else current.header.at;
              match Refusal(now, events, from)
              case Some(reason) => r == ResyncRequired(from.value, now, reason)
              case None =>
                && r.Batch? && r.from == from
                && r.events == ReplayedEvents(current.nodes, events, from, scope)
                && (scope.WholeGraph? ==> r.events == After(events, from))
                && (scope.Subtree? ==> ToldInSubtree(current.nodes, scope, After(events, from), r.events))
                && (r.to == if r.events == [] then None else Some(r.events[|r.events| - 1].time))
                && forall live: seq<NodeDto> | Enumerates(live, nodeStore) && OneParentEach(live) ::
                     r.events == ReplayedEvents(live, events, from, scope)
    {
      var now := if latestEventTime.Some? then latestEventTime.value else current.header.at;
      if from.Some? {
        if now.Before(from.value) {
          return ResyncRequired(from.value, now, CursorAheadOfServerTime);
        }
        if events != [] && from.value.Before(events[0].time) {
          return ResyncRequired(from.value, now, CursorOutOfRetentionWindow);
        }
      }
      var delivered := Deliver(from, scope);
      r := Batch(from, if delivered == [] then None else Some(delivered[|delivered| - 1].time), delivered);
      LaggingSnapshotReplaysLive(current.nodes, nodeStore, events, from, scope);
      WholeGraphKeepsAll(current.nodes, After(events, from));
    }

    /** The events after `from`, oldest first, each cut down to the scope. */
    method Deliver(from: Cursor, scope: Scope) returns (delivered: seq<Event>)
      ensures delivered == ReplayedEvents(current.nodes, events, from, scope)
      ensures scope.Subtree? ==> ToldInSubtree(current.nodes, scope, After(events, from), delivered)
    {
      hide *;
      if scope.Subtree? {
        ReplayedInSubtree(current.nodes, events, from, scope);
      }
      delivered := [];
      ghost var all := ReplayedEvents(current.nodes, events, from, scope);
      assert events[0..] == events;
      for i := 0 to |events|
        invariant delivered + ReplayedEvents(current.nodes, events[i..], from, scope) == all
      {
        ghost var rest := ReplayedEvents(current.nodes, events[i + 1..], from, scope);
        ReplayHead(current.nodes, events[i..], from, scope);
        assert events[i..][1..] == events[i + 1..];
        if Sees(from, events[i].time) {
          assert [] + rest == rest;
          continue;
        }
        var scoped := EventForScope(current.nodes, scope, events[i]);
        if scoped.Some? {
          assert delivered + ([scoped.value] + rest) == (delivered + [scoped.value]) + rest;
          delivered := delivered + [scoped.value];
        } else {
          assert [] + rest == rest;
        }
      }
      assert events[|events|..] == [];
      ReplayNothing(current.nodes, from, scope);
    }

    /** Conflates feedback for one replay payload; the ring and the store are not touched. */
    method CoalesceUiFeedbackEvents(batch: seq<Event>) returns (result: seq<Event>)
      ensures result == Conflate(nodeStore, [], batch)
      ensures Staying(nodeStore, result) == Staying(nodeStore, batch) && OneWriteEach(nodeStore, result)
    {
      result := CoalesceAgainst(nodeStore, batch);
    }
  }

}
