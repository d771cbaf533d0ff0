/** The batch coalescer: a run of pending feedback with an index by parameter, flushed by every other event. */
module FeedbackCoalescer {
  import opened UiTypes
  import opened Conflation

  /** The place of the event about `p` in a pending run, given that run's index. */
  function LatestOnly(pending: seq<Event>, index: Option<nat>, e: Event): seq<Event>
    requires index.Some? ==> index.value < |pending|
  {
    match index
    case None => pending + [e]
    case Some(i) => RemoveAt(pending, i) + [KeepOldValue(e, pending[i])]
  }

  function Lookup(indices: map<NodeId, nat>, p: NodeId): Option<nat> {
    if p in indices then Some(indices[p]) else None
  }

  /** `indices` locates exactly the parameters of `pending`, one event each. */
  ghost predicate Indexes(indices: map<NodeId, nat>, pending: seq<Event>) {
    && (forall i | 0 <= i < |pending| ::
          && pending[i].kind.ParamChanged?
          && pending[i].kind.param in indices
          && indices[pending[i].kind.param] == i)
    && (forall p | p in indices :: indices[p] < |pending| && pending[indices[p]].kind.param == p)
  }

  /** Removing the event of `p` and sliding the higher indices down leaves an exact index of the rest. */
  lemma {:induction false} RemoveIndexes(indices: map<NodeId, nat>, pending: seq<Event>, p: NodeId,
                                         after: map<NodeId, nat>)
    requires Indexes(indices, pending) && p in indices
    requires after.Keys == indices.Keys - {p}
    requires forall q | q in after :: after[q] == if indices[q] > indices[p] then indices[q] - 1 else indices[q]
    ensures Indexes(after, RemoveAt(pending, indices[p]))
  {
    var cut := indices[p];
    var rest := RemoveAt(pending, cut);
    forall i | 0 <= i < |rest|
      ensures rest[i].kind.ParamChanged? && rest[i].kind.param in after && after[rest[i].kind.param] == i
    {
      var i0 := if i < cut then i else i + 1;
      assert rest[i] == pending[i0];
      assert indices[pending[i0].kind.param] == i0;
    }
    forall q | q in after
      ensures after[q] < |rest| && rest[after[q]].kind.param == q
    {
      assert pending[indices[q]].kind.param == q && pending[cut].kind.param == p;
      assert rest[after[q]] == pending[indices[q]];
    }
  }

  class UiFeedbackCoalescer {
    var out: seq<Event>
    var pending: seq<Event>
    var pendingParamIndices: map<NodeId, nat>

    ghost predicate Valid()
      reads this
    {
      Indexes(pendingParamIndices, pending)
    }

    constructor ()
      ensures Valid() && out == [] && pending == []
    {
      out, pending, pendingParamIndices := [], [], map[];
    }

    /** Slides every index above a removed position down by one. */
    method ShiftIndicesAbove(index: nat)
      requires forall p | p in pendingParamIndices :: pendingParamIndices[p] > index ==> pendingParamIndices[p] > 0
      modifies this`pendingParamIndices
      ensures pendingParamIndices.Keys == old(pendingParamIndices).Keys
      ensures forall p | p in pendingParamIndices ::
                pendingParamIndices[p] == (if old(pendingParamIndices)[p] > index then old(pendingParamIndices)[p] - 1
                                           else old(pendingParamIndices)[p])
    {
      var todo := pendingParamIndices.Keys;
      while todo != {}
        invariant todo <= pendingParamIndices.Keys == old(pendingParamIndices).Keys
        invariant forall p | p in todo :: pendingParamIndices[p] == old(pendingParamIndices)[p]
        invariant forall p | p in pendingParamIndices && p !in todo ::
                    pendingParamIndices[p]
                    == (if old(pendingParamIndices)[p] > index then old(pendingParamIndices)[p] - 1
                                               else old(pendingParamIndices)[p])
        decreases |todo|
      {
        var p :| p in todo;
        todo := todo - {p};
        if pendingParamIndices[p] > index {
          pendingParamIndices := pendingParamIndices[p := pendingParamIndices[p] - 1];
        }
      }
    }

    /** Feedback replaces the pending feedback of its parameter; an event of any other kind is dropped. */
    method PushCoalescable(event: Event)
      requires Valid()
      modifies this
      ensures Valid() && out == old(out)
      ensures event.kind.ParamChanged? ==>
                pending == LatestOnly(old(pending), Lookup(old(pendingParamIndices), event.kind.param), event)
      ensures !event.kind.ParamChanged? ==> pending == old(pending)
    {
      if !event.kind.ParamChanged? {
        return;
      }
      var param, latest := event.kind.param, event;
      if param in pendingParamIndices {
        var index := pendingParamIndices[param];
        var previous := pending[index];
        pending := RemoveAt(pending, index);
        latest := KeepOldValue(latest, previous);
        ShiftIndicesAbove(index);
        pendingParamIndices := pendingParamIndices - {param};
        RemoveIndexes(old(pendingParamIndices), old(pending), param, pendingParamIndices);
      }
      pendingParamIndices := pendingParamIndices[param := |pending|];
      pending := pending + [latest];
    }

    method FlushPending()
      requires Valid()
      modifies this
      ensures Valid() && out == old(out) + old(pending) && pending == []
    {
      if pending == [] {
        return;
      }
      out := out + pending;
      pending := [];
      pendingParamIndices := map[];
    }

    method PushBarrier(event: Event)
      requires Valid()
      modifies this
      ensures Valid() && out == old(out) + old(pending) + [event] && pending == []
    {
      FlushPending();
      out := out + [event];
    }

    method Finish() returns (result: seq<Event>)
      requires Valid()
      modifies this
      ensures result == old(out) + old(pending)
    {
      FlushPending();
      result := out;
    }
  }

  /** `out` is closed by an event that ends every run before it. */
  ghost predicate EndsInBarrier(store: Store, out: seq<Event>) {
    out == [] || CoalescableParam(store, out[|out| - 1]).None?
  }

  ghost predicate AllCoalescable(store: Store, pending: seq<Event>) {
    forall e :: e in pending ==> CoalescableParam(store, e).Some?
  }

  /** On a ring that is a closed prefix and one indexed run, the backwards search finds what the index says. */
  lemma {:induction false} SearchAgreesWithIndex(store: Store, out: seq<Event>, pending: seq<Event>,
                                                 indices: map<NodeId, nat>, p: NodeId)
    requires EndsInBarrier(store, out) && AllCoalescable(store, pending) && Indexes(indices, pending)
    ensures PreviousIndex(store, out + pending, p) == if p in indices then |out| + indices[p] else -1
  {
    var ring := out + pending;
    var found := PreviousIndex(store, ring, p);
    assert forall j | |out| <= j < |ring| :: ring[j] == pending[j - |out|] && ring[j] in pending;
    assert out != [] ==> ring[|out| - 1] == out[|out| - 1];
    if p in indices {
      var i := indices[p];
      assert ring[|out| + i] == pending[i] && pending[i].kind.param == p;
      assert CoalescableParam(store, ring[|out| + i]) == Some(p);
      assert found >= |out| + i;
      assert ring[found] == pending[found - |out|];
    } else {
      forall j | |out| <= j < |ring|
        ensures CoalescableParam(store, ring[j]) != Some(p)
      {
        assert pending[j - |out|].kind.param in indices;
      }
      assert found < |out|;
    }
  }

  /** One coalescable event in the coalescer is one retained event in a ring with the same contents. */
  lemma {:induction false} PushIsRetain(store: Store, out: seq<Event>, pending: seq<Event>, indices: map<NodeId, nat>,
                                        e: Event)
    requires EndsInBarrier(store, out) && AllCoalescable(store, pending) && Indexes(indices, pending)
    requires CoalescableParam(store, e).Some?
    ensures out + LatestOnly(pending, Lookup(indices, e.kind.param), e) == Retain(store, out + pending, e)
    ensures AllCoalescable(store, LatestOnly(pending, Lookup(indices, e.kind.param), e))
  {
    var p := e.kind.param;
    SearchAgreesWithIndex(store, out, pending, indices, p);
    assert CoalescableParam(store, e) == Some(p);
    hide CoalescableParam, AllCoalescable, EndsInBarrier, Indexes, KeepOldValue;
    if p in indices {
      var i := indices[p];
      var ring := out + pending;
      assert ring[|out| + i] == pending[i];
      assert RemoveAt(ring, |out| + i) == out + RemoveAt(pending, i);
    } else {
      assert out + (pending + [e]) == (out + pending) + [e];
    }
  }

  /** Coalesces one list of events against `store`. The result is what retaining them one by one leaves in a ring. */
  lemma {:induction false} StaysAndMerges(store: Store, events: seq<Event>)
    ensures Staying(store, Conflate(store, [], events)) == Staying(store, events)
    ensures OneWriteEach(store, Conflate(store, [], events))
  {
    ConflateKeepsStaying(store, [], events);
    assert [] + events == events;
    OneWriteIsLeft(store, events);
  }

  method CoalesceAgainst(store: Store, events: seq<Event>) returns (result: seq<Event>)
    ensures result == Conflate(store, [], events)
    ensures Staying(store, result) == Staying(store, events)
    ensures OneWriteEach(store, result)
  {
    StaysAndMerges(store, events);
    hide Staying, OneWriteEach;
    var coalescer := new UiFeedbackCoalescer();
    for i := 0 to |events|
      invariant coalescer.Valid() && fresh(coalescer)
      invariant EndsInBarrier(store, coalescer.out) && AllCoalescable(store, coalescer.pending)
      invariant coalescer.out + coalescer.pending == Conflate(store, [], events[..i])
    {
      assert events[..i + 1][..i] == events[..i];
      if CoalescableParam(store, events[i]).Some? {
        PushIsRetain(store, coalescer.out, coalescer.pending, coalescer.pendingParamIndices, events[i]);
        coalescer.PushCoalescable(events[i]);
      } else {
        coalescer.PushBarrier(events[i]);
      }
    }
    assert events[..|events|] == events;
    result := coalescer.Finish();
  }
}
