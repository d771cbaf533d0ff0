/** Conflation of parameter feedback: what the retained ring keeps and why that is enough. */
module Conflation {
  import opened UiTypes
  import opened StoreSemantics

  /** The parameter whose feedback `e` carries, when that feedback may be replaced by a later value. */
  function CoalescableParam(store: Store, e: Event): Option<NodeId> {
    if e.kind.ParamChanged? && !e.kind.newValue.Trigger? && HoldsParam(store, e.kind.param)
       && store[e.kind.param].data.param.eventBehaviour.Coalesce?
    then Some(e.kind.param)
    else None
  }

  /** The newer event, reaching back to the value the older one started from. */
  function KeepOldValue(newer: Event, older: Event): Event {
    if newer.kind.ParamChanged? && older.kind.ParamChanged?
    then newer.(kind := newer.kind.(oldValue := older.kind.oldValue))
    else newer
  }

  function RemoveAt<T>(s: seq<T>, i: nat): seq<T>
    requires i < |s|
  {
    s[..i] + s[i + 1..]
  }

  /** The event about `p` in the trailing run of coalescable events, or -1. */
  function PreviousIndex(store: Store, events: seq<Event>, p: NodeId): (i: int)
    ensures -1 <= i < |events|
    ensures i >= 0 ==> CoalescableParam(store, events[i]) == Some(p)
    ensures forall j | i < j < |events| ::
              CoalescableParam(store, events[j]) == Some(p) ==>
                exists k :: j < k < |events| && CoalescableParam(store, events[k]).None?
    ensures i >= 0 ==> forall j | i < j < |events| ::
                CoalescableParam(store, events[j]).Some? && CoalescableParam(store, events[j]) != Some(p)
    decreases |events|
  {
    if events == [] then -1 else
    var n := |events| - 1;
    match CoalescableParam(store, events[n])
    case None => -1
    case Some(q) => if q == p then n else PreviousIndex(store, events[..n], p)
  }

  /** One more event in the retained ring, before eviction. */
  function Retain(store: Store, ring: seq<Event>, e: Event): seq<Event> {
    match CoalescableParam(store, e)
    case None => ring + [e]
    case Some(p) =>
      var i := PreviousIndex(store, ring, p);
      if i < 0 then ring + [e] else RemoveAt(ring, i) + [KeepOldValue(e, ring[i])]
  }

  function Conflate(store: Store, ring: seq<Event>, events: seq<Event>): seq<Event>
    decreases |events|
  {
    if events == [] then ring else
    Retain(store, Conflate(store, ring, events[..|events| - 1]), events[|events| - 1])
  }

  // ---------------------------------------------------------------------
  // Meaning
  // ---------------------------------------------------------------------

  /** `e` starts from the value its parameter holds in `s`. */
  ghost predicate Continues(s: Store, e: Event) {
    e.kind.ParamChanged? && HoldsParam(s, e.kind.param) ==> s[e.kind.param].data.param.value == e.kind.oldValue
  }

  ghost predicate Chained(s: Store, events: seq<Event>)
    decreases |events|
  {
    events == [] ||
    (Chained(s, events[..|events| - 1]) && Continues(Apply(s, events[..|events| - 1]), events[|events| - 1]))
  }

  lemma {:induction false} ChainedConcat(s: Store, a: seq<Event>, b: seq<Event>)
    ensures Chained(s, a + b) <==> Chained(s, a) && Chained(Apply(s, a), b)
    decreases |b|
  {
    if b == [] {
      assert a + b == a;
    } else {
      var front := b[..|b| - 1];
      assert (a + b)[..|a + b| - 1] == a + front;
      ChainedConcat(s, a, front);
      ApplyConcat(s, a, front);
    }
  }

  lemma {:induction false} ChainedAt(s: Store, events: seq<Event>, j: nat)
    requires Chained(s, events) && j < |events|
    ensures Continues(Apply(s, events[..j]), events[j])
  {
    assert events == events[..j] + events[j..] && events[j..] == [events[j]] + events[j + 1..];
    ChainedConcat(s, events[..j], events[j..]);
    ChainedConcat(Apply(s, events[..j]), [events[j]], events[j + 1..]);
  }

  /** A run of parameter events none of which is about `p`. */
  predicate AvoidsParam(events: seq<Event>, p: NodeId) {
    forall e :: e in events ==> e.kind.ParamChanged? && e.kind.param != p
  }

  lemma {:induction false} ParamEventMovesToEnd(s: Store, x: Event, mid: seq<Event>)
    requires x.kind.ParamChanged? && AvoidsParam(mid, x.kind.param)
    ensures Apply(ApplyEvent(s, x), mid) == ApplyEvent(Apply(s, mid), x)
    decreases |mid|
  {
    if mid == [] {
    } else {
      var front, last := mid[..|mid| - 1], mid[|mid| - 1];
      ParamEventMovesToEnd(s, x, front);
    }
  }

  lemma {:induction false} AvoidingLeavesParam(s: Store, mid: seq<Event>, p: NodeId)
    requires AvoidsParam(mid, p)
    ensures p in s <==> p in Apply(s, mid)
    ensures p in s ==> Apply(s, mid)[p] == s[p]
    decreases |mid|
  {
    if mid == [] {
    } else {
      AvoidingLeavesParam(s, mid[..|mid| - 1], p);
    }
  }

  /** Dropping an event about `p` does not disturb the chain of the events about other parameters. */
  lemma {:induction false} ChainWithoutParam(s: Store, x: Event, mid: seq<Event>)
    requires x.kind.ParamChanged? && AvoidsParam(mid, x.kind.param)
    requires Chained(ApplyEvent(s, x), mid)
    ensures Chained(s, mid)
    decreases |mid|
  {
    if mid == [] {
    } else {
      var front := mid[..|mid| - 1];
      ChainWithoutParam(s, x, front);
      ParamEventMovesToEnd(s, x, front);
    }
  }

  /** Two events about the same parameter against one that reaches from the first to the last. */
  lemma {:induction false} MergedEvent(s: Store, x: Event, e: Event)
    requires x.kind.ParamChanged? && e.kind.ParamChanged? && x.kind.param == e.kind.param
    ensures Agree(ApplyEvent(s, KeepOldValue(e, x)), ApplyEvent(ApplyEvent(s, x), e))
    ensures Chained(s, [x, e]) ==> ApplyEvent(s, KeepOldValue(e, x)) == ApplyEvent(ApplyEvent(s, x), e)
    ensures Chained(s, [x, e]) ==> Continues(s, KeepOldValue(e, x))
  {
    assert [x, e][..1] == [x] && [x][..0] == [];
    assert Apply(s, [x]) == ApplyEvent(Apply(s, []), x) == ApplyEvent(s, x);
    assert Chained(s, [x, e]) ==> Continues(s, x) && Continues(ApplyEvent(s, x), e) by {
      if Chained(s, [x, e]) {
        assert Chained(s, [x]);
      }
    }
  }

  /** The conflation step: `x`, `mid`, `e` against `mid` and the merged event. */
  lemma {:induction false} ConflatedRun(s: Store, x: Event, mid: seq<Event>, e: Event)
    requires x.kind.ParamChanged? && e.kind.ParamChanged? && x.kind.param == e.kind.param
    requires AvoidsParam(mid, x.kind.param)
    ensures Agree(Apply(s, mid + [KeepOldValue(e, x)]), Apply(s, [x] + mid + [e]))
    ensures Chained(s, [x] + mid + [e]) ==>
              && Apply(s, mid + [KeepOldValue(e, x)]) == Apply(s, [x] + mid + [e])
              && Chained(s, mid + [KeepOldValue(e, x)])
  {
    var merged := KeepOldValue(e, x);
    var t := Apply(s, mid);
    SnocApply(s, mid, merged);
    SnocApply(s, [x] + mid, e);
    ApplyConcat(s, [x], mid);
    SnocApply(s, [], x);
    assert [] + [x] == [x];
    ParamEventMovesToEnd(s, x, mid);
    MergedEvent(t, x, e);
    if Chained(s, [x] + mid + [e]) {
      ChainedConcat(s, [x] + mid, [e]);
      ChainedConcat(s, [x], mid);
      ChainWithoutParam(s, x, mid);
      AvoidingLeavesParam(s, mid, x.kind.param);
      ChainOfTwo(t, x, e);
      ChainedConcat(s, mid, [merged]);
    }
  }

  lemma {:induction false} SnocApply(s: Store, events: seq<Event>, e: Event)
    ensures Apply(s, events + [e]) == ApplyEvent(Apply(s, events), e)
  {
    assert (events + [e])[..|events + [e]| - 1] == events;
  }

  lemma {:induction false} ChainOfTwo(s: Store, x: Event, e: Event)
    ensures Chained(s, [x, e]) <==> Continues(s, x) && Continues(ApplyEvent(s, x), e)
  {
    assert [x, e] == [x] + [e];
    ChainedConcat(s, [x], [e]);
    SnocApply(s, [], x);
    assert [] + [x] == [x];
  }

  /** One retained event keeps the meaning of the ring followed by that event, for every store a client may hold. */
  lemma {:induction false} RetainKeepsMeaning(store: Store, ring: seq<Event>, e: Event, s: Store)
    ensures Agree(Apply(s, Retain(store, ring, e)), Apply(s, ring + [e]))
    ensures Chained(s, ring + [e]) ==>
              && Apply(s, Retain(store, ring, e)) == Apply(s, ring + [e])
              && Chained(s, Retain(store, ring, e))
  {
    var p := CoalescableParam(store, e);
    if p.Some? && PreviousIndex(store, ring, p.value) >= 0 {
      var i := PreviousIndex(store, ring, p.value);
      var pre, x, mid := ring[..i], ring[i], ring[i + 1..];
      forall m | m in mid
        ensures m.kind.ParamChanged? && m.kind.param != p.value
      {
        var j :| 0 <= j < |mid| && mid[j] == m;
        assert m == ring[i + 1 + j];
      }
      var run, merged := [x] + mid + [e], mid + [KeepOldValue(e, x)];
      assert ring + [e] == pre + run;
      assert Retain(store, ring, e) == pre + merged;
      ApplyConcat(s, pre, run);
      ApplyConcat(s, pre, merged);
      ChainedConcat(s, pre, run);
      ChainedConcat(s, pre, merged);
      ConflatedRun(Apply(s, pre), x, mid, e);
    }
  }

  /** Conflating a stream preserves its meaning exactly when it is a chain, and up to defaults always. */
  lemma {:induction false} ConflateKeepsMeaning(store: Store, ring: seq<Event>, events: seq<Event>, s: Store)
    ensures Agree(Apply(s, Conflate(store, ring, events)), Apply(s, ring + events))
    ensures Chained(s, ring + events) ==>
              && Apply(s, Conflate(store, ring, events)) == Apply(s, ring + events)
              && Chained(s, Conflate(store, ring, events))
    decreases |events|
  {
    if events == [] {
      assert ring + events == ring;
    } else {
      var front, e := events[..|events| - 1], events[|events| - 1];
      var before := Conflate(store, ring, front);
      assert ring + events == (ring + front) + [e];
      ConflateKeepsMeaning(store, ring, front, s);
      RetainKeepsMeaning(store, before, e, s);
      SnocApply(s, before, e);
      SnocApply(s, ring + front, e);
      ApplyEventKeepsAgreement(Apply(s, before), Apply(s, ring + front), e);
      ChainedConcat(s, ring + front, [e]);
      ChainedConcat(s, before, [e]);
    }
  }

  // ---------------------------------------------------------------------
  // Normal form
  // ---------------------------------------------------------------------

  ghost predicate Separated(store: Store, events: seq<Event>, i: nat, j: nat)
    requires j <= |events|
  {
    exists k :: i < k < j && CoalescableParam(store, events[k]).None?
  }

  ghost predicate SameFeedback(store: Store, x: Event, y: Event) {
    CoalescableParam(store, x).Some? && CoalescableParam(store, x) == CoalescableParam(store, y)
  }

  /** No two events of one coalescable run are about the same parameter. */
  ghost predicate FullyConflated(store: Store, events: seq<Event>) {
    forall i, j | 0 <= i < j < |events| :: SameFeedback(store, events[i], events[j]) ==> Separated(store, events, i, j)
  }

  lemma {:induction false} AppendKeepsSeparation(store: Store, events: seq<Event>, e: Event, i: nat, j: nat)
    requires i < j <= |events| && Separated(store, events, i, j)
    ensures Separated(store, events + [e], i, j)
  {
    var k :| i < k < j && CoalescableParam(store, events[k]).None?;
    assert (events + [e])[k] == events[k];
  }

  lemma {:induction false} AppendedKeepsNormalForm(store: Store, ring: seq<Event>, e: Event)
    requires FullyConflated(store, ring)
    requires var p := CoalescableParam(store, e); p.Some? ==> PreviousIndex(store, ring, p.value) < 0
    ensures FullyConflated(store, ring + [e])
  {
    var after := ring + [e];
    forall i, j | 0 <= i < j < |after| && SameFeedback(store, after[i], after[j])
      ensures Separated(store, after, i, j)
    {
      if j < |ring| {
        assert SameFeedback(store, ring[i], ring[j]);
      } else {
        assert CoalescableParam(store, ring[i]) == CoalescableParam(store, e);
        assert Separated(store, ring, i, |ring|);
      }
      AppendKeepsSeparation(store, ring, e, i, j);
    }
  }

  /** Taking an event out of the last run, and with it the only event of that run about its parameter. */
  lemma {:induction false} RemovalKeepsNormalForm(store: Store, ring: seq<Event>, cut: nat)
    requires cut < |ring| && FullyConflated(store, ring)
    requires forall j | cut <= j < |ring| :: CoalescableParam(store, ring[j]).Some?
    ensures FullyConflated(store, RemoveAt(ring, cut))
  {
    var after := RemoveAt(ring, cut);
    forall i, j | 0 <= i < j < |after| && SameFeedback(store, after[i], after[j])
      ensures Separated(store, after, i, j)
    {
      var i0, j0 := if i < cut then i else i + 1, if j < cut then j else j + 1;
      assert after[i] == ring[i0] && after[j] == ring[j0];
      var k :| i0 < k < j0 && CoalescableParam(store, ring[k]).None?;
      assert k < cut && after[k] == ring[k];
    }
  }

  /** After the removal the run holds nothing about that parameter any more. */
  lemma {:induction false} RemovedLeavesNoPrevious(store: Store, ring: seq<Event>, p: NodeId)
    requires FullyConflated(store, ring) && PreviousIndex(store, ring, p) >= 0
    ensures PreviousIndex(store, RemoveAt(ring, PreviousIndex(store, ring, p)), p) < 0
  {
    var cut := PreviousIndex(store, ring, p);
    var after := RemoveAt(ring, cut);
    assert forall j | cut <= j < |after| :: after[j] == ring[j + 1];
    forall j | 0 <= j < |after| && CoalescableParam(store, after[j]) == Some(p)
      ensures Separated(store, after, j, |after|)
    {
      assert j < cut && SameFeedback(store, ring[j], ring[cut]);
      var k :| j < k < cut && CoalescableParam(store, ring[k]).None?;
      assert after[k] == ring[k];
    }
  }

  lemma {:induction false} RetainKeepsNormalForm(store: Store, ring: seq<Event>, e: Event)
    requires FullyConflated(store, ring)
    ensures FullyConflated(store, Retain(store, ring, e))
  {
    var p := CoalescableParam(store, e);
    if p.None? || PreviousIndex(store, ring, p.value) < 0 {
      AppendedKeepsNormalForm(store, ring, e);
    } else {
      var cut := PreviousIndex(store, ring, p.value);
      RemovalKeepsNormalForm(store, ring, cut);
      RemovedLeavesNoPrevious(store, ring, p.value);
      AppendedKeepsNormalForm(store, RemoveAt(ring, cut), KeepOldValue(e, ring[cut]));
    }
  }

  lemma {:induction false} ConflateReachesNormalForm(store: Store, events: seq<Event>)
    ensures FullyConflated(store, Conflate(store, [], events))
    decreases |events|
  {
    if events == [] {
    } else {
      ConflateReachesNormalForm(store, events[..|events| - 1]);
      RetainKeepsNormalForm(store, Conflate(store, [], events[..|events| - 1]), events[|events| - 1]);
    }
  }

  lemma {:induction false} NormalFormSplits(store: Store, front: seq<Event>, e: Event)
    requires FullyConflated(store, front + [e])
    ensures FullyConflated(store, front)
    ensures CoalescableParam(store, e).Some? ==> PreviousIndex(store, front, CoalescableParam(store, e).value) < 0
  {
    var events := front + [e];
    assert forall k | 0 <= k < |front| :: events[k] == front[k];
    forall i, j | 0 <= i < j < |events| && SameFeedback(store, events[i], events[j])
      ensures Separated(store, front, i, j)
    {
      assert Separated(store, events, i, j);
      var k :| i < k < j && CoalescableParam(store, events[k]).None?;
      assert CoalescableParam(store, front[k]).None?;
    }
    assert forall i | 0 <= i < |front| && SameFeedback(store, front[i], e) ::
             SameFeedback(store, events[i], events[|front|]);
  }

  lemma {:induction false} NormalFormIsFixed(store: Store, events: seq<Event>)
    requires FullyConflated(store, events)
    ensures Conflate(store, [], events) == events
    decreases |events|
  {
    if events == [] {
    } else {
      var front, e := events[..|events| - 1], events[|events| - 1];
      assert events == front + [e];
      NormalFormSplits(store, front, e);
      NormalFormIsFixed(store, front);
    }
  }

  /** Coalescing twice is coalescing once. */
  lemma {:induction false} ConflateIsIdempotent(store: Store, events: seq<Event>)
    ensures Conflate(store, [], Conflate(store, [], events)) == Conflate(store, [], events)
  {
    ConflateReachesNormalForm(store, events);
    NormalFormIsFixed(store, Conflate(store, [], events));
  }

  // ---------------------------------------------------------------------
  // Which events may be merged, and what merging leaves
  // ---------------------------------------------------------------------

  /** No later value may take the place of this event: it is no write or writes a trigger, or what it writes is missing,
      is no parameter, or is one whose events are kept one by one. */
  predicate Stays(store: Store, e: Event) {
    match e.kind
    case ParamChanged(p, _, v) =>
      v == Trigger || p !in store || store[p].data.Plain? || store[p].data.param.eventBehaviour.Append?
    case _ => true
  }

  function Staying(store: Store, events: seq<Event>): seq<Event>
    decreases |events|
  {
    if events == [] then [] else
    var last := events[|events| - 1];
    Staying(store, events[..|events| - 1]) + (if Stays(store, last) then [last] else [])
  }

  lemma {:induction false} OnlyOthersCoalesce(store: Store, e: Event)
    ensures Stays(store, e) <==> CoalescableParam(store, e).None?
    ensures !Stays(store, e) ==> e.kind.ParamChanged? && CoalescableParam(store, e) == Some(e.kind.param)
  {
  }

  /** Event `i` is the latest write of the parameter that `e` writes, and only writes that may be replaced, of other
      parameters, come after it. */
  ghost predicate GivesWay(store: Store, ring: seq<Event>, i: nat, e: Event) {
    && i < |ring| && !Stays(store, e) && !Stays(store, ring[i]) && ring[i].kind.param == e.kind.param
    && forall k | i < k < |ring| :: !Stays(store, ring[k]) && ring[k].kind.param != e.kind.param
  }

  /** One event, written with what its parameter held before `first`. */
  function Spanning(first: Event, last: Event): Event
    requires first.kind.ParamChanged? && last.kind.ParamChanged?
  {
    Event(last.time, ParamChanged(last.kind.param, first.kind.oldValue, last.kind.newValue))
  }

  /** `after` is the ring with the new event at the end; of the events
      before it, at most one gives way, and it passes its start value on. */
  ghost predicate Takes(store: Store, ring: seq<Event>, e: Event, after: seq<Event>) {
    && (forall i: nat | GivesWay(store, ring, i, e) ::
          after == ring[..i] + ring[i + 1..] + [Spanning(ring[i], e)])
    && ((forall i: nat | i < |ring| :: !GivesWay(store, ring, i, e)) ==> after == ring + [e])
  }

  lemma {:induction false} RetainExactly(store: Store, ring: seq<Event>, e: Event)
    ensures Takes(store, ring, e, Retain(store, ring, e))
  {
    OnlyOthersCoalesce(store, e);
    forall k | 0 <= k < |ring|
      ensures CoalescableParam(store, ring[k]) == if Stays(store, ring[k]) then None else Some(ring[k].kind.param)
    {
      OnlyOthersCoalesce(store, ring[k]);
    }
    if !Stays(store, e) {
      var found := PreviousIndex(store, ring, e.kind.param);
      hide CoalescableParam, Stays;
      if found >= 0 {
        assert GivesWay(store, ring, found, e);
      }
      forall i: nat | GivesWay(store, ring, i, e)
        ensures i == found
      {
        assert forall k | i < k < |ring| :: CoalescableParam(store, ring[k]).Some?;
      }
    }
  }

  lemma {:induction false} StayingConcat(store: Store, a: seq<Event>, b: seq<Event>)
    ensures Staying(store, a + b) == Staying(store, a) + Staying(store, b)
    decreases |b|
  {
    if b == [] {
      assert a + b == a;
    } else {
      assert (a + b)[..|a + b| - 1] == a + b[..|b| - 1];
      StayingConcat(store, a, b[..|b| - 1]);
    }
  }

  lemma {:induction false} StayingOne(store: Store, e: Event)
    ensures Staying(store, [e]) == if Stays(store, e) then [e] else []
  {
    assert [e][..0] == [];
  }

  lemma {:induction false} RetainKeepsStaying(store: Store, ring: seq<Event>, e: Event)
    ensures Staying(store, Retain(store, ring, e)) == Staying(store, ring + [e])
  {
    RetainExactly(store, ring, e);
    if i: nat :| GivesWay(store, ring, i, e) {
      var merged := Spanning(ring[i], e);
      assert ring == ring[..i] + [ring[i]] + ring[i + 1..];
      StayingOne(store, ring[i]);
      StayingOne(store, e);
      StayingOne(store, merged);
      assert !Stays(store, merged);
      hide Stays;
      StayingConcat(store, ring[..i], [ring[i]]);
      StayingConcat(store, ring[..i] + [ring[i]], ring[i + 1..]);
      StayingConcat(store, ring, [e]);
      StayingConcat(store, ring[..i], ring[i + 1..]);
      StayingConcat(store, ring[..i] + ring[i + 1..], [merged]);
    }
  }

  /** Conflation keeps every event that may not be merged, unchanged and in its place among the others. */
  lemma {:induction false} ConflateKeepsStaying(store: Store, ring: seq<Event>, events: seq<Event>)
    ensures Staying(store, Conflate(store, ring, events)) == Staying(store, ring + events)
    decreases |events|
  {
    hide Stays, Staying, Retain;
    if events == [] {
      assert ring + events == ring;
    } else {
      var front, e := events[..|events| - 1], events[|events| - 1];
      assert ring + events == (ring + front) + [e];
      var before := Conflate(store, ring, front);
      assert Conflate(store, ring, events) == Retain(store, before, e);
      hide Conflate;
      ConflateKeepsStaying(store, ring, front);
      RetainKeepsStaying(store, before, e);
      StayingConcat(store, before, [e]);
      StayingConcat(store, ring + front, [e]);
    }
  }

  /** Between any two replaceable writes of one parameter there is an event that stays. */
  ghost predicate OneWriteEach(store: Store, events: seq<Event>) {
    forall i, j | 0 <= i < j < |events| && !Stays(store, events[i]) && !Stays(store, events[j]) ::
      events[i].kind.param == events[j].kind.param ==> exists k :: i < k < j && Stays(store, events[k])
  }

  /** ... and leaves no two replaceable writes of one parameter without such an event between them. */
  lemma {:induction false} OneWriteIsLeft(store: Store, events: seq<Event>)
    ensures OneWriteEach(store, Conflate(store, [], events))
  {
    var left := Conflate(store, [], events);
    ConflateReachesNormalForm(store, events);
    forall i | 0 <= i < |left|
      ensures CoalescableParam(store, left[i]) == if Stays(store, left[i]) then None else Some(left[i].kind.param)
    {
      OnlyOthersCoalesce(store, left[i]);
    }
    hide Stays, CoalescableParam;
    forall i, j | 0 <= i < j < |left| && !Stays(store, left[i]) && !Stays(store, left[j])
                  && left[i].kind.param == left[j].kind.param
      ensures exists k :: i < k < j && Stays(store, left[k])
    {
      assert SameFeedback(store, left[i], left[j]);
      var k :| i < k < j && CoalescableParam(store, left[k]).None?;
      assert Stays(store, left[k]);
    }
  }

  /** Two neighbouring writes of one parameter leave one, from the first start value to the last value. */
  lemma {:induction false} NeighboursMerge(store: Store, x: Event, y: Event)
    requires !Stays(store, x) && !Stays(store, y) && x.kind.param == y.kind.param
    ensures Conflate(store, [], [x, y]) == [Spanning(x, y)]
  {
    assert [x, y][..1] == [x] && [x][..0] == [];
    RetainExactly(store, [], x);
    RetainExactly(store, [x], y);
    assert Retain(store, [], x) == [] + [x];
    assert Conflate(store, [], [x]) == Retain(store, Conflate(store, [], []), x) == [x];
    assert GivesWay(store, [x], 0, y);
  }
}
