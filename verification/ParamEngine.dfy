/** Parameter edits on the live engine: what they write, what they announce and what the caches keep. */
module ParamEngine {
  import opened UiTypes
  import opened StoreSemantics
  import opened Conflation
  import opened ReplayLog

  datatype ChangeCheck = ValueChange | NoCheck

  datatype ParamState = ParamState(
    value: ParamValue,
    defaultValue: ParamValue,
    changeCheck: ChangeCheck,
    eventBehaviour: EventBehaviour,
    readOnly: bool,
    constraints: string,
    control: string)

  /** A node of the engine, with the part of its snapshot that parameter edits do not touch. */
  datatype EngineNode = ParamNode(shell: NodeDto, state: ParamState) | OtherNode(shell: NodeDto, summary: string)

  type Nodes = map<NodeId, EngineNode>

  datatype EditError =
    | NodeNotFound(missing: NodeId)
    | ParamConstraintViolation(violating: NodeId)
    | ParamEditTargetMismatch(mismatched: NodeId)
    | ParamConstraintsRejected(rejecting: NodeId)

  datatype Outcome<+T> = Done(effect: Option<T>) | Failed(error: EditError)

  datatype SetParamEffect = SetParamEffect(node: NodeId, oldValue: ParamValue, newValue: ParamValue, tick: nat)

  datatype SetConstraintsEffect = SetConstraintsEffect(
    node: NodeId, oldConstraints: string, newConstraints: string, oldValue: ParamValue, newValue: ParamValue)

  // ---------------------------------------------------------------------
  // The projection that snapshots show
  // ---------------------------------------------------------------------

  /** The default is shown only while the value differs from it. */
  function AsDto(state: ParamState): ParamDto {
    ParamDto(
      state.value,
      if state.defaultValue == state.value then None else Some(state.defaultValue),
      state.eventBehaviour,
      state.readOnly,
      state.constraints,
      state.control)
  }

  function Projected(node: EngineNode): NodeDto {
    match node
    case ParamNode(shell, state) => shell.(data := Parameter(AsDto(state)))
    case OtherNode(shell, summary) => shell.(data := Plain(summary))
  }

  function Project(nodes: Nodes): Store {
    map id | id in nodes :: Projected(nodes[id])
  }

  predicate IsParam(nodes: Nodes, p: NodeId) {
    p in nodes && nodes[p].ParamNode?
  }

  function WithState(nodes: Nodes, p: NodeId, state: ParamState): Nodes
    requires IsParam(nodes, p)
  {
    nodes[p := ParamNode(nodes[p].shell, state)]
  }

  /** The event of a write, read by a client, is the write: value, and remembered default. */
  lemma {:induction false} WriteIsItsEvent(nodes: Nodes, p: NodeId, v: ParamValue, time: EngineTime)
    requires IsParam(nodes, p)
    ensures var state := nodes[p].state;
            var e := Event(time, ParamChanged(p, state.value, v));
            && ApplyEvent(Project(nodes), e) == Project(WithState(nodes, p, state.(value := v)))
            && Continues(Project(nodes), e)
  {
  }

  lemma {:induction false} ConstraintsAreTheirEvent(nodes: Nodes, p: NodeId, constraints: string, time: EngineTime)
    requires IsParam(nodes, p)
    ensures var state := nodes[p].state;
            ApplyEvent(Project(nodes), Event(time, ParamConstraintsChanged(p, state.constraints, constraints)))
              == Project(WithState(nodes, p, state.(constraints := constraints)))
  {
  }

  /** A snapshot shows a default exactly while the value is not the default, and then the declared one. */
  lemma {:induction false} ShownDefault(nodes: Nodes, p: NodeId)
    requires IsParam(nodes, p)
    ensures var shown := Project(nodes)[p].data.param; var state := nodes[p].state;
            && shown.value == state.value
            && (shown.defaultValue.None? <==> state.value == state.defaultValue)
            && Or(shown.defaultValue, shown.value) == state.defaultValue
  {
  }

  /** Everything else a snapshot shows of a parameter, and of its node, is as it is. */
  lemma {:induction false} ShownAsItIs(nodes: Nodes, p: NodeId)
    requires IsParam(nodes, p)
    ensures var shown, shell, state := Project(nodes)[p], nodes[p].shell, nodes[p].state;
            && shown.data.Parameter? && shown == shell.(data := shown.data)
            && shown.data.param.eventBehaviour == state.eventBehaviour
            && shown.data.param.readOnly == state.readOnly
            && shown.data.param.constraints == state.constraints
            && shown.data.param.control == state.control
  {
  }

  // ---------------------------------------------------------------------
  // The emitted stream
  // ---------------------------------------------------------------------

  predicate IsWriteOf(e: Event, p: NodeId) {
    e.kind.ParamChanged? && e.kind.param == p
  }

  predicate Written(events: seq<Event>, p: NodeId) {
    exists e :: e in events && IsWriteOf(e, p)
  }

  /** Every event continues from the value before it, and all events together lead from the initial nodes to these. */
  ghost predicate EventSourced(initial: Nodes, events: seq<Event>, nodes: Nodes) {
    && OnlyParamEvents(events)
    && Chained(Project(initial), events)
    && Apply(Project(initial), events) == Project(nodes)
  }

  predicate OnlyParamEvents(events: seq<Event>) {
    forall e :: e in events ==> e.kind.ParamChanged? || e.kind.ParamConstraintsChanged?
  }

  /** Folding the events over the initial nodes gives the live ones: value, constraints and declared default. */
  lemma {:induction false} FoldGivesLiveState(initial: Nodes, events: seq<Event>, nodes: Nodes, p: NodeId)
    requires EventSourced(initial, events, nodes) && IsParam(nodes, p)
    ensures HoldsParam(Apply(Project(initial), events), p)
    ensures var folded := Apply(Project(initial), events)[p].data.param; var state := nodes[p].state;
            && folded.value == state.value
            && folded.constraints == state.constraints
            && Or(folded.defaultValue, folded.value) == state.defaultValue
  {
    ShownDefault(nodes, p);
  }

  lemma {:induction false} OthersLeaveValue(s: Store, events: seq<Event>, p: NodeId)
    requires OnlyParamEvents(events) && !Written(events, p) && HoldsParam(s, p)
    ensures HoldsParam(Apply(s, events), p) && Apply(s, events)[p].data.param.value == s[p].data.param.value
    decreases |events|
  {
    if events != [] {
      var front, last := events[..|events| - 1], events[|events| - 1];
      assert last in events && forall e | e in front :: e in events;
      OthersLeaveValue(s, front, p);
      assert !IsWriteOf(last, p);
    }
  }

  /** Two successive writes of a parameter: the later starts from the value the earlier left. */
  lemma {:induction false} WritesFormAChain(base: Store, events: seq<Event>, p: NodeId, i: nat, j: nat)
    requires Chained(base, events) && OnlyParamEvents(events)
    requires i < j < |events| && IsWriteOf(events[i], p) && IsWriteOf(events[j], p) && !Written(events[i + 1..j], p)
    requires HoldsParam(Apply(base, events[..i]), p)
    ensures events[j].kind.oldValue == events[i].kind.newValue
  {
    ChainedAt(base, events, j);
    assert events[..j] == events[..i] + [events[i]] + events[i + 1..j];
    SnocApply(base, events[..i], events[i]);
    ApplyConcat(base, events[..i] + [events[i]], events[i + 1..j]);
    hide Apply, Chained;
    OthersLeaveValue(ApplyEvent(Apply(base, events[..i]), events[i]), events[i + 1..j], p);
  }

  /** One cache knows the live value of every parameter, the other when each written one changed last. */
  ghost predicate CachesAgree(nodes: Nodes, events: seq<Event>, cache: map<NodeId, ParamValue>,
                              lastChange: map<NodeId, u64>, counter: u64) {
    && (forall p :: p in cache <==> IsParam(nodes, p))
    && (forall p | p in cache :: nodes[p].state.value == cache[p])
    && (forall p :: p in lastChange <==> Written(events, p))
    && (forall p | p in lastChange :: lastChange[p] <= counter)
  }

  lemma {:induction false} WriteKeepsSource(initial: Nodes, events: seq<Event>, nodes: Nodes, p: NodeId, v: ParamValue,
                                            time: EngineTime)
    requires EventSourced(initial, events, nodes) && IsParam(nodes, p)
    ensures EventSourced(initial, events + [Event(time, ParamChanged(p, nodes[p].state.value, v))],
                         WithState(nodes, p, nodes[p].state.(value := v)))
  {
    hide Project;
    var event := Event(time, ParamChanged(p, nodes[p].state.value, v));
    WriteIsItsEvent(nodes, p, v, time);
    SnocApply(Project(initial), events, event);
    ChainedConcat(Project(initial), events, [event]);
  }

  lemma {:induction false} ConstraintsKeepSource(initial: Nodes, events: seq<Event>, nodes: Nodes, p: NodeId,
                                                 constraints: string, time: EngineTime)
    requires EventSourced(initial, events, nodes) && IsParam(nodes, p)
    ensures EventSourced(initial,
                         events + [Event(time, ParamConstraintsChanged(p, nodes[p].state.constraints, constraints))],
                         WithState(nodes, p, nodes[p].state.(constraints := constraints)))
  {
    hide Project;
    var event := Event(time, ParamConstraintsChanged(p, nodes[p].state.constraints, constraints));
    ConstraintsAreTheirEvent(nodes, p, constraints, time);
    SnocApply(Project(initial), events, event);
    ChainedConcat(Project(initial), events, [event]);
  }

  lemma {:induction false} WriteKeepsCaches(nodes: Nodes, events: seq<Event>, cache: map<NodeId, ParamValue>,
                                            lastChange: map<NodeId, u64>, counter: u64, p: NodeId, v: ParamValue,
                                            time: EngineTime)
    requires CachesAgree(nodes, events, cache, lastChange, counter) && IsParam(nodes, p)
    ensures CachesAgree(WithState(nodes, p, nodes[p].state.(value := v)),
                        events + [Event(time, ParamChanged(p, nodes[p].state.value, v))],
                        cache[p := v], lastChange[p := Bumped(counter)], Bumped(counter))
  {
    var event := Event(time, ParamChanged(p, nodes[p].state.value, v));
    assert event in events + [event] && IsWriteOf(event, p);
    assert forall q :: Written(events + [event], q) <==> Written(events, q) || q == p;
  }

  lemma {:induction false} ConstraintsKeepCaches(nodes: Nodes, events: seq<Event>, cache: map<NodeId, ParamValue>,
                                                 lastChange: map<NodeId, u64>, counter: u64, p: NodeId,
                                                 constraints: string, time: EngineTime)
    requires CachesAgree(nodes, events, cache, lastChange, counter) && IsParam(nodes, p)
    ensures CachesAgree(WithState(nodes, p, nodes[p].state.(constraints := constraints)),
                        events + [Event(time, ParamConstraintsChanged(p, nodes[p].state.constraints, constraints))],
                        cache, lastChange, counter)
  {
  }

  /** Every event is stamped later than the one before, and the clock has moved past the last. */
  ghost predicate Stamped(events: seq<Event>, time: EngineTime) {
    Increasing(events) && (events != [] ==> events[|events| - 1].time.Before(time))
  }

  /** The log is what conflating and evicting leaves of the stream, every event judged against the nodes of its time. */
  ghost predicate IsLog(log: seq<Event>, gone: Option<EngineTime>, judges: seq<Store>, events: seq<Event>,
                        capacity: nat) {
    |judges| == |events| && Ring(log, gone) == LogOf(judges, events, capacity)
  }

  lemma {:induction false} LogGrows(store: Store, log: seq<Event>, gone: Option<EngineTime>, judges: seq<Store>,
                                    events: seq<Event>, capacity: nat, e: Event)
    requires IsLog(log, gone, judges, events, capacity)
    ensures var next := AppendOne(store, Ring(log, gone), e, capacity);
            IsLog(next.events, next.gone, judges + [store], events + [e], capacity)
  {
    var n := |events|;
    assert (judges + [store])[..n] == judges && (events + [e])[..n] == events;
  }

  // ---------------------------------------------------------------------
  // The engine
  // ---------------------------------------------------------------------

  const MAX_COUNT: nat := 0xFFFF_FFFF
  const MAX_TICK: nat := 0xFFFF_FFFF_FFFF_FFFF

  function Successor(n: nat, limit: nat): nat {
    if n < limit then n + 1 else n
  }

  /** The clock after `count` events: the sequence number stops at its maximum. */
  function Stamp(time: EngineTime, count: nat): EngineTime {
    EngineTime(time.tick, time.micro, if time.sequence + count <= MAX_COUNT then time.sequence + count
                                      else if time.sequence <= MAX_COUNT then MAX_COUNT else time.sequence)
  }

  /** A clock part goes on by one, and one by one, until it stands at its maximum. */
  lemma {:induction false} ClocksCountByOne(n: nat, limit: nat, time: EngineTime, count: nat)
    ensures Successor(n, limit) == n + 1 <==> n < limit
    ensures Successor(n, limit) == n <==> n >= limit
    ensures Stamp(time, 0) == time
    ensures time.sequence <= MAX_COUNT ==>
              var before := Stamp(time, count);
              Stamp(time, count + 1) == before.(sequence := Successor(before.sequence, MAX_COUNT))
  {
  }

  /** What is announced when a parameter changes: its value first, then its constraints, and only what differs. */
  function ChangeEvents(p: NodeId, before: ParamState, now: ParamState, time: EngineTime): seq<Event> {
    var writes := if before.value == now.value then [] else [Event(time, ParamChanged(p, before.value, now.value))];
    if before.constraints == now.constraints then writes
    else writes + [Event(Stamp(time, |writes|), ParamConstraintsChanged(p, before.constraints, now.constraints))]
  }

  /** What differs is announced, from what it was to what it is, and nothing else; the value comes first. */
  lemma {:induction false} ChangeIsAnnounced(p: NodeId, before: ParamState, now: ParamState, time: EngineTime)
    ensures var events := ChangeEvents(p, before, now, time);
            var writes, constrains := before.value != now.value, before.constraints != now.constraints;
            && |events| == (if writes then 1 else 0) + (if constrains then 1 else 0)
            && (writes ==> events[0] == Event(time, ParamChanged(p, before.value, now.value)))
            && (constrains ==>
                  events[|events| - 1].kind == ParamConstraintsChanged(p, before.constraints, now.constraints))
            && (constrains && !writes ==> events[0].time == time)
  {
  }

  /** When value and constraints change together, the two events have increasing times exactly
      while the sequence number can still advance: at its maximum both carry the same time. */
  lemma {:induction false} SaturatedClockRepeats(p: NodeId, before: ParamState, now: ParamState, time: EngineTime)
    requires before.value != now.value && before.constraints != now.constraints && time.sequence <= MAX_COUNT
    ensures var events := ChangeEvents(p, before, now, time);
            && |events| == 2
            && (Increasing(events) <==> time.sequence < MAX_COUNT)
            && (time.sequence == MAX_COUNT ==> events[0].time == events[1].time)
  {
    var events := ChangeEvents(p, before, now, time);
    assert events[0].time == time && events[1].time == Stamp(time, 1);
    assert Increasing(events) <==> time.Before(Stamp(time, 1));
  }

  datatype Preparation = Prepared(value: ParamValue) | Refused(error: EditError)

  /** The value a write would set: references are resolved, then the value is adapted to its kind and constraints. */
  function Prepare(nodes: Nodes, p: NodeId, value: ParamValue, resolve: (NodeId, string) -> Option<string>,
                   coerce: (ParamValue, ParamValue) -> Option<ParamValue>,
                   normalize: (string, ParamValue) -> Option<ParamValue>): (r: Preparation)
    ensures r.Prepared? ==> IsParam(nodes, p)
  {
    if value.Reference? && resolve(p, value.target).None? then Refused(ParamConstraintViolation(p))
    else if p !in nodes then Refused(NodeNotFound(p))
    else if nodes[p].OtherNode? then Refused(ParamEditTargetMismatch(p))
    else
      var state := nodes[p].state;
      match coerce(if value.Reference? then Reference(resolve(p, value.target).value) else value, state.value)
      case None => Refused(ParamConstraintViolation(p))
      case Some(coerced) =>
        match normalize(state.constraints, coerced)
        case None => Refused(ParamConstraintViolation(p))
        case Some(v) => Prepared(v)
  }

  /** A write that changes nothing and need not be announced. */
  predicate Redundant(state: ParamState, v: ParamValue) {
    !v.Trigger? && state.changeCheck.ValueChange? && state.value == v
  }

  /** `v` is the value adapted to the kind of the current one, and then to the constraints. */
  ghost predicate Adapts(value: ParamValue, current: ParamValue, constraints: string,
                         coerce: (ParamValue, ParamValue) -> Option<ParamValue>,
                         normalize: (string, ParamValue) -> Option<ParamValue>, v: ParamValue) {
    exists coerced :: coerce(value, current) == Some(coerced) && normalize(constraints, coerced) == Some(v)
  }

  /** A reference that cannot be resolved is refused before anything else, then a missing node, then one that is no
      parameter. Otherwise the value, or the resolved reference, is adapted to the current value and constraints, and it
      is only refused if that fails. */
  lemma {:induction false} PrepareExactly(nodes: Nodes, p: NodeId, value: ParamValue,
                                          resolve: (NodeId, string) -> Option<string>,
                                          coerce: (ParamValue, ParamValue) -> Option<ParamValue>,
                                          normalize: (string, ParamValue) -> Option<ParamValue>)
    ensures var r := Prepare(nodes, p, value, resolve, coerce, normalize);
            var unresolved := value.Reference? && resolve(p, value.target).None?;
            && (unresolved ==> r == Refused(ParamConstraintViolation(p)))
            && (!unresolved && p !in nodes ==> r == Refused(NodeNotFound(p)))
            && (!unresolved && p in nodes && nodes[p].OtherNode? ==> r == Refused(ParamEditTargetMismatch(p)))
    ensures IsParam(nodes, p) && !(value.Reference? && resolve(p, value.target).None?) ==>
              var r, state := Prepare(nodes, p, value, resolve, coerce, normalize), nodes[p].state;
              var target := if value.Reference? then Reference(resolve(p, value.target).value) else value;
              && (forall v ::
                    r == Prepared(v) <==> Adapts(target, state.value, state.constraints, coerce, normalize, v))
              && (r.Refused? ==> r == Refused(ParamConstraintViolation(p)))
  {
  }

  /** Only writing again what is there is without effect, never a trigger, and only where values are compared. */
  lemma {:induction false} OnlyRepeatsAreRedundant(state: ParamState, v: ParamValue)
    ensures Redundant(state, v) <==> v == state.value && v != Trigger && state.changeCheck == ValueChange
  {
  }

  class Engine {
    var nodes: Nodes
    var time: EngineTime
    var inbox: seq<Event>
    var uiEventLog: seq<Event>
    var uiEventLogCapacity: nat
    var parameterValuesCache: map<NodeId, ParamValue>
    var paramChangeCounter: u64
    var paramLastChangeCounter: map<NodeId, u64>
    /** Adapts a value to the kind of the current one. */
    const coerce: (ParamValue, ParamValue) -> Option<ParamValue>
    /** Adapts a value to constraints. */
    const normalize: (string, ParamValue) -> Option<ParamValue>
    ghost const initial: Nodes
    ghost var emitted: seq<Event>
    /** The nodes each event was judged against, and the time of the last event the log has lost. */
    ghost var judges: seq<Store>
    ghost var gone: Option<EngineTime>
    /** A part of the clock stood at its maximum when it was due to advance. */
    ghost var clockStuck: bool

    /** Parameter state is event-sourced, and everything derived from it is up to date. */
    ghost predicate Valid()
      reads this
    {
      uiEventLogCapacity >= 1 && Consistent(nodes)
    }

    /** The stream, the log and the caches are those of `state`. */
    ghost predicate Consistent(state: Nodes)
      reads this
    {
      && EventSourced(initial, emitted, state)
      && CachesAgree(state, emitted, parameterValuesCache, paramLastChangeCounter, paramChangeCounter)
      && IsLog(uiEventLog, gone, judges, emitted, uiEventLogCapacity)
      && (!clockStuck ==> Stamped(emitted, time))
    }

    constructor (nodes: Nodes, time: EngineTime, capacity: nat,
                 coerce: (ParamValue, ParamValue) -> Option<ParamValue>,
                 normalize: (string, ParamValue) -> Option<ParamValue>)
      ensures Valid() && this.nodes == nodes && initial == nodes && emitted == [] && uiEventLog == [] && !clockStuck
      ensures parameterValuesCache.Keys == set p | p in nodes && nodes[p].ParamNode?
    {
      this.nodes, this.time, this.coerce, this.normalize := nodes, time, coerce, normalize;
      inbox, uiEventLog, uiEventLogCapacity := [], [], if capacity < 1 then 1 else capacity;
      parameterValuesCache := map p | p in nodes && nodes[p].ParamNode? :: nodes[p].state.value;
      paramChangeCounter, paramLastChangeCounter := 0, map[];
      initial, emitted, judges, gone, clockStuck := nodes, [], [], None, false;
    }

    method BeginTick()
      requires Valid()
      modifies this`time, this`clockStuck
      ensures Valid()
      ensures time == EngineTime(Successor(old(time).tick, MAX_TICK), 0, 0)
      ensures clockStuck <==> old(clockStuck) || old(time).tick >= MAX_TICK
    {
      clockStuck := clockStuck || time.tick >= MAX_TICK;
      time := EngineTime(Successor(time.tick, MAX_TICK), 0, 0);
    }

    method BeginStabilizationPass()
      requires Valid()
      modifies this`time, this`clockStuck
      ensures Valid()
      ensures time == EngineTime(old(time).tick, Successor(old(time).micro, MAX_COUNT), 0)
      ensures clockStuck <==> old(clockStuck) || old(time).micro >= MAX_COUNT
    {
      clockStuck := clockStuck || time.micro >= MAX_COUNT;
      time := EngineTime(time.tick, Successor(time.micro, MAX_COUNT), 0);
    }

    /** Stamps an event, appends it to the log and the inbox, and advances the sequence number. */
    method EmitEvent(kind: EventKind)
      requires uiEventLogCapacity >= 1
      requires IsLog(uiEventLog, gone, judges, emitted, uiEventLogCapacity) && (!clockStuck ==> Stamped(emitted, time))
      modifies this`inbox, this`uiEventLog, this`emitted, this`judges, this`gone, this`time, this`clockStuck
      ensures emitted == old(emitted) + [Event(old(time), kind)]
      ensures inbox == old(inbox) + [Event(old(time), kind)]
      ensures Ring(uiEventLog, gone)
              == AppendOne(Project(nodes), Ring(old(uiEventLog), old(gone)), Event(old(time), kind), uiEventLogCapacity)
      ensures time == Stamp(old(time), 1)
      ensures clockStuck <==> old(clockStuck) || old(time).sequence >= MAX_COUNT
      ensures IsLog(uiEventLog, gone, judges, emitted, uiEventLogCapacity) && (!clockStuck ==> Stamped(emitted, time))
    {
      hide Retain, Evict, Project, IsLog;
      var event := Event(time, kind);
      var next := Stamp(time, 1);
      clockStuck := clockStuck || time.sequence >= MAX_COUNT;
      LogGrows(Project(nodes), uiEventLog, gone, judges, emitted, uiEventLogCapacity, event);
      judges := judges + [Project(nodes)];
      gone := AppendOne(Project(nodes), Ring(uiEventLog, gone), event, uiEventLogCapacity).gone;
      PushUiEventLog(event);
      inbox := inbox + [event];
      emitted := emitted + [event];
      time := next;
    }

    /** The log replaces the previous feedback of the same parameter in
        its trailing coalescable run, then drops its oldest events. */
    method PushUiEventLog(event: Event)
      modifies this`uiEventLog
      ensures uiEventLog == Evict(Retain(Project(nodes), old(uiEventLog), event), uiEventLogCapacity)
    {
      hide Project, CoalescableParam, KeepOldValue, Evict, RemoveAt;
      var live := Project(nodes);
      var param := CoalescableParam(live, event);
      var latest := event;
      if param.Some? {
        var previousIndex := -1;
        var index := |uiEventLog|;
        while index > 0
          invariant 0 <= index <= |uiEventLog| && previousIndex == -1
          invariant PreviousIndex(live, uiEventLog, param.value)
                    == PreviousIndex(live, uiEventLog[..index], param.value)
        {
          index := index - 1;
          assert uiEventLog[..index + 1][..index] == uiEventLog[..index];
          var existing := CoalescableParam(live, uiEventLog[index]);
          if existing.None? {
            break;
          }
          if existing == param {
            previousIndex := index;
            break;
          }
        }
        if previousIndex >= 0 {
          latest := KeepOldValue(event, uiEventLog[previousIndex]);
          uiEventLog := RemoveAt(uiEventLog, previousIndex);
        }
      }
      uiEventLog := uiEventLog + [latest];
      TrimUiEventLog();
    }

    method TrimUiEventLog()
      modifies this`uiEventLog
      ensures uiEventLog == Evict(old(uiEventLog), uiEventLogCapacity)
    {
      if |uiEventLog| > uiEventLogCapacity {
        uiEventLog := uiEventLog[|uiEventLog| - uiEventLogCapacity..];
      }
    }

    /** Announces that the value of `p` went from `oldValue` to `newValue`, and brings the caches up to date with it. */
    method AnnounceWrite(p: NodeId, oldValue: ParamValue, newValue: ParamValue, ghost before: Nodes)
      requires uiEventLogCapacity >= 1 && IsParam(before, p) && before[p].state.value == oldValue
      requires Consistent(before)
      modifies this`inbox, this`uiEventLog, this`emitted, this`judges, this`gone, this`time, this`clockStuck,
               this`parameterValuesCache, this`paramChangeCounter, this`paramLastChangeCounter
      ensures Consistent(WithState(before, p, before[p].state.(value := newValue)))
      ensures emitted == old(emitted) + [Event(old(time), ParamChanged(p, oldValue, newValue))]
      ensures time == Stamp(old(time), 1)
      ensures clockStuck <==> old(clockStuck) || old(time).sequence >= MAX_COUNT
    {
      hide EventSourced, CachesAgree, Stamped, IsLog, Retain, Evict, Project, WithState;
      WriteKeepsSource(initial, emitted, before, p, newValue, time);
      WriteKeepsCaches(before, emitted, parameterValuesCache, paramLastChangeCounter, paramChangeCounter, p, newValue,
                       time);
      EmitEvent(ParamChanged(p, oldValue, newValue));
      paramChangeCounter := Bumped(paramChangeCounter);
      paramLastChangeCounter := paramLastChangeCounter[p := paramChangeCounter];
      parameterValuesCache := parameterValuesCache[p := newValue];
    }

    method AnnounceConstraints(p: NodeId, oldConstraints: string, newConstraints: string, ghost before: Nodes)
      requires uiEventLogCapacity >= 1 && IsParam(before, p) && before[p].state.constraints == oldConstraints
      requires Consistent(before)
      modifies this`inbox, this`uiEventLog, this`emitted, this`judges, this`gone, this`time, this`clockStuck
      ensures Consistent(WithState(before, p, before[p].state.(constraints := newConstraints)))
      ensures emitted == old(emitted) + [Event(old(time), ParamConstraintsChanged(p, oldConstraints, newConstraints))]
      ensures time == Stamp(old(time), 1)
      ensures clockStuck <==> old(clockStuck) || old(time).sequence >= MAX_COUNT
    {
      hide EventSourced, CachesAgree, Stamped, IsLog, Retain, Evict, Project, WithState;
      ConstraintsKeepSource(initial, emitted, before, p, newConstraints, time);
      ConstraintsKeepCaches(before, emitted, parameterValuesCache, paramLastChangeCounter, paramChangeCounter, p,
                            newConstraints, time);
      EmitEvent(ParamConstraintsChanged(p, oldConstraints, newConstraints));
    }

    /** Announces the change of a parameter that has been made: its value first, then its constraints. */
    method AnnounceChange(p: NodeId, oldState: ParamState, newState: ParamState, ghost before: Nodes)
      requires uiEventLogCapacity >= 1 && IsParam(before, p) && before[p].state == oldState
      requires newState == oldState.(value := newState.value, constraints := newState.constraints)
      requires nodes == WithState(before, p, newState)
      requires Consistent(before)
      modifies this`inbox, this`uiEventLog, this`emitted, this`judges, this`gone, this`time, this`clockStuck,
               this`parameterValuesCache, this`paramChangeCounter, this`paramLastChangeCounter
      ensures Valid()
      ensures emitted == old(emitted) + ChangeEvents(p, oldState, newState, old(time))
      ensures time == Stamp(old(time), |ChangeEvents(p, oldState, newState, old(time))|)
      ensures !old(clockStuck) && old(time).sequence + |ChangeEvents(p, oldState, newState, old(time))| <= MAX_COUNT ==>
                !clockStuck
    {
      hide EventSourced, CachesAgree, Stamped, IsLog, Retain, Evict, Project;
      ghost var valued := WithState(before, p, oldState.(value := newState.value));
      if oldState.value != newState.value {
        AnnounceWrite(p, oldState.value, newState.value, before);
      } else {
        assert valued == before;
      }
      ghost var constrained := WithState(valued, p, newState);
      if oldState.constraints != newState.constraints {
        AnnounceConstraints(p, oldState.constraints, newState.constraints, valued);
      } else {
        assert constrained == valued;
      }
      assert constrained == nodes;
    }

    /** Writes a value: refused, without effect, or one event from the old value to the adapted new one. */
    method ApplySetParam(node: NodeId, value: ParamValue, resolve: (NodeId, string) -> Option<string>)
      returns (r: Outcome<SetParamEffect>)
      requires Valid()
      modifies this`nodes, this`inbox, this`uiEventLog, this`emitted, this`judges, this`gone, this`time,
               this`clockStuck, this`parameterValuesCache, this`paramChangeCounter, this`paramLastChangeCounter
      ensures Valid()
      ensures match Prepare(old(nodes), node, value, resolve, coerce, normalize)
              case Refused(error) => r == Failed(error) && nodes == old(nodes) && emitted == old(emitted)
              case Prepared(v) =>
                var state := old(nodes)[node].state;
                if Redundant(state, v) then r == Done(None) && nodes == old(nodes) && emitted == old(emitted)
                else
                  && r == Done(Some(SetParamEffect(node, state.value, v, old(time).tick)))
                  && nodes == WithState(old(nodes), node, state.(value := v))
                  && emitted == old(emitted) + [Event(old(time), ParamChanged(node, state.value, v))]
    {
      hide EventSourced, CachesAgree, Stamped, IsLog, Retain, Evict, Project;
      var target := value;
      if value.Reference? {
        var normalized := resolve(node, value.target);
        if normalized.None? {
          return Failed(ParamConstraintViolation(node));
        }
        target := Reference(normalized.value);
      }
      if node !in nodes {
        return Failed(NodeNotFound(node));
      }
      if nodes[node].OtherNode? {
        return Failed(ParamEditTargetMismatch(node));
      }
      var state := nodes[node].state;
      var coerced := coerce(target, state.value);
      if coerced.None? {
        return Failed(ParamConstraintViolation(node));
      }
      var prepared := normalize(state.constraints, coerced.value);
      if prepared.None? {
        return Failed(ParamConstraintViolation(node));
      }
      if !prepared.value.Trigger? && state.changeCheck.ValueChange? && state.value == prepared.value {
        return Done(None);
      }
      ghost var before := nodes;
      nodes := WithState(nodes, node, state.(value := prepared.value));
      AnnounceWrite(node, state.value, prepared.value, before);
      return Done(Some(SetParamEffect(node, state.value, prepared.value, time.tick)));
    }

    /** Changes the constraints of a parameter, and its value where they no longer admit it. */
    method ApplySetParamConstraints(node: NodeId, constraints: string) returns (r: Outcome<SetConstraintsEffect>)
      requires Valid()
      modifies this`nodes, this`inbox, this`uiEventLog, this`emitted, this`judges, this`gone, this`time,
               this`clockStuck, this`parameterValuesCache, this`paramChangeCounter, this`paramLastChangeCounter
      ensures Valid()
      ensures r.Failed? || r == Done(None) ==> nodes == old(nodes) && emitted == old(emitted)
      ensures r.Failed?
              <==> || !IsParam(old(nodes), node)
                   || Constrained(old(nodes)[node].state.value, old(nodes)[node].state, constraints).None?
      ensures r.Failed? ==>
                r.error == if node !in old(nodes) then NodeNotFound(node)
                           else if old(nodes)[node].OtherNode? then ParamEditTargetMismatch(node)
                           else ParamConstraintsRejected(node)
      ensures r.Done? ==>
                var state := old(nodes)[node].state; var now := Constrained(state.value, state, constraints).value;
                          && nodes == WithState(old(nodes), node, now)
                          && emitted == old(emitted) + ChangeEvents(node, state, now, old(time))
                          && (r.effect.None? <==> now == state)
                          && (r.effect.Some? ==>
                                r.effect.value == SetConstraintsEffect(node, state.constraints, now.constraints,
                                                                       state.value, now.value))
    {
      hide EventSourced, CachesAgree, Stamped, IsLog, Retain, Evict, Project;
      if node !in nodes {
        return Failed(NodeNotFound(node));
      }
      if nodes[node].OtherNode? {
        return Failed(ParamEditTargetMismatch(node));
      }
      var state := nodes[node].state;
      var changed := Constrained(state.value, state, constraints);
      if changed.None? {
        return Failed(ParamConstraintsRejected(node));
      }
      var now := changed.value;
      ghost var before := nodes;
      nodes := WithState(nodes, node, now);
      if state.constraints == now.constraints && state.value == now.value {
        assert now == state && nodes == before;
        return Done(None);
      }
      AnnounceChange(node, state, now, before);
      return Done(Some(SetConstraintsEffect(node, state.constraints, now.constraints, state.value, now.value)));
    }

    /** Puts back a value and constraints that history remembers. */
    method ApplyRestoreParamState(node: NodeId, value: ParamValue, constraints: string) returns (r: Outcome<()>)
      requires Valid()
      modifies this`nodes, this`inbox, this`uiEventLog, this`emitted, this`judges, this`gone, this`time,
               this`clockStuck, this`parameterValuesCache, this`paramChangeCounter, this`paramLastChangeCounter
      ensures Valid()
      ensures r.Failed? ==> nodes == old(nodes) && emitted == old(emitted)
      ensures r.Failed? <==> !IsParam(old(nodes), node) || Constrained(value, old(nodes)[node].state, constraints).None?
      ensures r.Failed? ==>
                r.error == if node !in old(nodes) then NodeNotFound(node)
                           else if old(nodes)[node].OtherNode? then ParamEditTargetMismatch(node)
                           else ParamConstraintsRejected(node)
      ensures r.Done? ==> var state := old(nodes)[node].state; var now := Constrained(value, state, constraints).value;
                          && nodes == WithState(old(nodes), node, now)
                          && emitted == old(emitted) + ChangeEvents(node, state, now, old(time))
    {
      hide EventSourced, CachesAgree, Stamped, IsLog, Retain, Evict, Project;
      if node !in nodes {
        return Failed(NodeNotFound(node));
      }
      if nodes[node].OtherNode? {
        return Failed(ParamEditTargetMismatch(node));
      }
      var state := nodes[node].state;
      var restored := Constrained(value, state, constraints);
      if restored.None? {
        return Failed(ParamConstraintsRejected(node));
      }
      ghost var before := nodes;
      nodes := WithState(nodes, node, restored.value);
      AnnounceChange(node, state, restored.value, before);
      return Done(Some(()));
    }

    /** The value is adapted to the new constraints, not to the ones it replaces, and nothing else changes. */
    lemma {:induction false} ConstrainedExactly(value: ParamValue, state: ParamState, constraints: string,
                                                now: ParamState)
      ensures Constrained(value, state, constraints) == Some(now)
              <==> && Adapts(value, state.value, constraints, coerce, normalize, now.value)
                   && now == state.(value := now.value, constraints := constraints)
    {
    }

    /** The value and constraints a change would leave, if both can be adapted. */
    function Constrained(value: ParamValue, state: ParamState, constraints: string): Option<ParamState> {
      match coerce(value, state.value)
      case None => None
      case Some(coerced) =>
        match normalize(constraints, coerced)
        case None => None
        case Some(v) => Some(state.(value := v, constraints := constraints))
    }

    /** The retained events a capture collects: those from the first one that is newer than `after`. */
    method UiEventsSince(after: Option<EngineTime>) returns (events: seq<Event>)
      requires Valid()
      ensures after.None? || !clockStuck ==> events == After(uiEventLog, after)
    {
      if after.None? {
        AfterNoneSeen(uiEventLog, after);
        return uiEventLog;
      }
      var start := 0;
      while start < |uiEventLog| && uiEventLog[start].time.AtMost(after.value)
        invariant 0 <= start <= |uiEventLog|
        invariant forall e | e in uiEventLog[..start] :: e.time.AtMost(after.value)
      {
        start := start + 1;
      }
      events := uiEventLog[start..];
      if !clockStuck {
        LogCovers(judges, emitted, uiEventLogCapacity, None, map[]);
        NewerTail(uiEventLog, start, after);
      }
    }
  }

  /** In an increasing log, what a cursor has not seen is a tail. */
  lemma {:induction false} NewerTail(log: seq<Event>, start: nat, c: Cursor)
    requires Increasing(log) && start <= |log|
    requires forall e | e in log[..start] :: Sees(c, e.time)
    requires start < |log| ==> !Sees(c, log[start].time)
    ensures After(log, c) == log[start..]
  {
    hide After;
    var seen, news := log[..start], log[start..];
    assert log == seen + news;
    AfterConcat(seen, news, c);
    AfterAllSeen(seen, c);
    forall e | e in news
      ensures !Sees(c, e.time)
    {
      var i :| start <= i < |log| && log[i] == e;
      assert i > start ==> log[start].time.Before(log[i].time);
    }
    AfterNoneSeen(news, c);
  }
}
