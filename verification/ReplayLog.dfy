/** The bounded, conflating event ring and what a late client recovers from it. */
module ReplayLog {
  import opened UiTypes
  import opened StoreSemantics
  import opened Conflation

  function Evict(ring: seq<Event>, capacity: nat): seq<Event> {
    if |ring| > capacity then ring[|ring| - capacity..] else ring
  }

  /** The retained events, and the time of the last one that was evicted. */
  datatype Ring = Ring(events: seq<Event>, gone: Option<EngineTime>)

  const EMPTY := Ring([], None)

  /** One more event, judged against the store. */
  function AppendOne(store: Store, ring: Ring, e: Event, capacity: nat): Ring {
    var kept := Retain(store, ring.events, e);
    Ring(Evict(kept, capacity), if |kept| > capacity then Some(kept[|kept| - capacity - 1].time) else ring.gone)
  }

  /** A batch appended to the ring, every event judged against the store as it was before the batch. */
  function AppendAll(store: Store, ring: Ring, events: seq<Event>, capacity: nat): Ring
    decreases |events|
  {
    if events == [] then ring else
    AppendOne(store, AppendAll(store, ring, events[..|events| - 1], capacity), events[|events| - 1], capacity)
  }

  /** Up to where a client has seen the stream; `None` before its first event. */
  type Cursor = Option<EngineTime>

  predicate Sees(c: Cursor, t: EngineTime) {
    c.Some? && t.AtMost(c.value)
  }

  /** Nothing that a client at `c` has not seen has been evicted. */
  predicate Reaches(ring: Ring, c: Cursor) {
    ring.gone.Some? ==> Sees(c, ring.gone.value)
  }

  /** The events a client at `cursor` has not seen. */
  function After(events: seq<Event>, cursor: Cursor): seq<Event> {
    if events == [] then []
    else if Sees(cursor, events[0].time) then After(events[1..], cursor)
    else [events[0]] + After(events[1..], cursor)
  }

  /** The events a client at `cursor` has seen. */
  function UpTo(events: seq<Event>, cursor: Cursor): seq<Event> {
    if events == [] then []
    else if Sees(cursor, events[0].time) then [events[0]] + UpTo(events[1..], cursor)
    else UpTo(events[1..], cursor)
  }

  /** Every event is either seen or not: those up to the cursor are, and the rest is what comes after it. */
  lemma {:induction false} AfterExactly(events: seq<Event>, cursor: Cursor, e: Event)
    ensures e in After(events, cursor) <==> e in events && (cursor.None? || cursor.value.Before(e.time))
    ensures e in UpTo(events, cursor) <==> e in events && cursor.Some? && e.time.AtMost(cursor.value)
    decreases |events|
  {
    if events != [] {
      AfterExactly(events[1..], cursor, e);
    }
  }

  predicate Increasing(events: seq<Event>) {
    forall i, j | 0 <= i < j < |events| :: events[i].time.Before(events[j].time)
  }

  // ---------------------------------------------------------------------
  // Cutting a stream at a cursor
  // ---------------------------------------------------------------------

  lemma {:induction false} AfterConcat(a: seq<Event>, b: seq<Event>, c: Cursor)
    ensures After(a + b, c) == After(a, c) + After(b, c)
  {
    if a == [] {
      assert a + b == b;
    } else {
      assert (a + b)[1..] == a[1..] + b;
      AfterConcat(a[1..], b, c);
    }
  }

  lemma {:induction false} AfterAllSeen(events: seq<Event>, c: Cursor)
    requires forall e :: e in events ==> Sees(c, e.time)
    ensures After(events, c) == []
  {
    if events == [] {
    } else {
      AfterAllSeen(events[1..], c);
    }
  }

  lemma {:induction false} AfterNoneSeen(events: seq<Event>, c: Cursor)
    requires forall e :: e in events ==> !Sees(c, e.time)
    ensures After(events, c) == events
  {
    if events == [] {
    } else {
      AfterNoneSeen(events[1..], c);
    }
  }

  /** An increasing stream is what the client has seen followed by what it has not. */
  lemma {:induction false} SeenThenUnseen(events: seq<Event>, c: Cursor)
    requires Increasing(events)
    ensures UpTo(events, c) + After(events, c) == events
  {
    if events == [] {
    } else if Sees(c, events[0].time) {
      SeenThenUnseen(events[1..], c);
    } else {
      forall e | e in events[1..]
        ensures !Sees(c, e.time)
      {
        assert events[0].time.Before(e.time);
      }
      AfterNoneSeen(events[1..], c);
      SeenThenUnseen(events[1..], c);
      assert |UpTo(events[1..], c)| == 0;
    }
  }

  // ---------------------------------------------------------------------
  // One append keeps the ring as good as the history
  // ---------------------------------------------------------------------

  lemma {:induction false} IncreasingPrefix(events: seq<Event>, e: Event, c: Cursor)
    requires Increasing(events + [e]) && Sees(c, e.time)
    ensures After(events + [e], c) == [] == After(events, c)
  {
    forall x | x in events
      ensures Sees(c, x.time)
    {
      var i :| 0 <= i < |events| && events[i] == x;
      assert (events + [e])[i].time.Before((events + [e])[|events|].time);
    }
    AfterAllSeen(events, c);
    AfterAllSeen(events + [e], c);
  }

  lemma {:induction false} RemoveIncreasing(all: seq<Event>, cut: nat)
    requires Increasing(all) && cut + 1 < |all|
    ensures Increasing(RemoveAt(all, cut))
    ensures all[0].time.AtMost(RemoveAt(all, cut)[0].time)
  {
  }

  lemma {:induction false} SameTimesIncreasing(a: seq<Event>, b: seq<Event>)
    requires Increasing(a) && |a| == |b| && forall i | 0 <= i < |a| :: a[i].time == b[i].time
    ensures Increasing(b)
  {
  }

  lemma {:induction false} RetainIncreasing(store: Store, ring: seq<Event>, e: Event)
    requires Increasing(ring + [e])
    ensures Increasing(Retain(store, ring, e))
    ensures ring != [] ==> ring[0].time.AtMost(Retain(store, ring, e)[0].time)
    ensures Retain(store, ring, e) != []
    ensures var r := Retain(store, ring, e); r[|r| - 1].time == e.time
  {
    var all := ring + [e];
    var p := CoalescableParam(store, e);
    if p.Some? && PreviousIndex(store, ring, p.value) >= 0 {
      var cut := PreviousIndex(store, ring, p.value);
      RemoveIncreasing(all, cut);
      assert RemoveAt(all, cut) == RemoveAt(ring, cut) + [e];
      SameTimesIncreasing(RemoveAt(all, cut), Retain(store, ring, e));
    }
  }

  lemma {:induction false} AfterOne(e: Event, c: Cursor)
    ensures After([e], c) == if Sees(c, e.time) then [] else [e]
  {
    assert [e][1..] == [];
  }

  /** A stream with one event taken out of the middle and merged into the last. */
  lemma {:induction false} UnseenOfMerge(pre: seq<Event>, x: Event, mid: seq<Event>, merged: Event, c: Cursor)
    requires !Sees(c, merged.time)
    ensures After(pre + mid + [merged], c) == After(pre, c) + (After(mid, c) + [merged])
    ensures After(pre + [x] + mid, c) == After(pre, c) + (After([x], c) + After(mid, c))
  {
    AfterConcat(pre + mid, [merged], c);
    AfterConcat(pre, mid, c);
    AfterOne(merged, c);
    AfterConcat(pre + [x], mid, c);
    AfterConcat(pre, [x], c);
  }

  /** Conflation inside the part a client has not seen, or across its cursor, changes nothing that it can observe. */
  lemma {:induction false} RetainCovers(store: Store, ring: seq<Event>, e: Event, c: Cursor, s: Store)
    requires Increasing(ring + [e]) && !Sees(c, e.time)
    ensures Agree(Apply(s, After(Retain(store, ring, e), c)), Apply(s, After(ring, c) + [e]))
  {
    var p := CoalescableParam(store, e);
    if p.None? || PreviousIndex(store, ring, p.value) < 0 {
      AfterOne(e, c);
      AfterConcat(ring, [e], c);
    } else {
      var i := PreviousIndex(store, ring, p.value);
      var pre, x, mid, merged := ring[..i], ring[i], ring[i + 1..], KeepOldValue(e, ring[i]);
      assert ring == pre + [x] + mid;
      assert Retain(store, ring, e) == pre + mid + [merged];
      UnseenOfMerge(pre, x, mid, merged, c);
      MidAvoids(store, ring, p.value, c);
      MergeCovers(s, After(pre, c), x, After(mid, c), e, c);
    }
  }

  lemma {:induction false} MergeCovers(s: Store, pre: seq<Event>, x: Event, mid: seq<Event>, e: Event, c: Cursor)
    requires x.kind.ParamChanged? && e.kind.ParamChanged? && x.kind.param == e.kind.param
    requires AvoidsParam(mid, x.kind.param)
    ensures Agree(Apply(s, pre + (mid + [KeepOldValue(e, x)])), Apply(s, pre + (After([x], c) + mid) + [e]))
  {
    var merged := KeepOldValue(e, x);
    AfterOne(x, c);
    if Sees(c, x.time) {
      assert pre + (mid + [merged]) == (pre + mid) + [merged];
      assert pre + (After([x], c) + mid) + [e] == (pre + mid) + [e];
    } else {
      assert pre + ([x] + mid) + [e] == pre + ([x] + mid + [e]);
      ApplyConcat(s, pre, mid + [merged]);
      ApplyConcat(s, pre, [x] + mid + [e]);
      ConflatedRun(Apply(s, pre), x, mid, e);
    }
  }

  lemma {:induction false} MidAvoids(store: Store, ring: seq<Event>, p: NodeId, c: Cursor)
    requires PreviousIndex(store, ring, p) >= 0
    ensures AvoidsParam(After(ring[PreviousIndex(store, ring, p) + 1..], c), p)
  {
    var i := PreviousIndex(store, ring, p);
    var mid := ring[i + 1..];
    assert forall j | 0 <= j < |mid| ::
             mid[j] == ring[i + 1 + j] && mid[j].kind.ParamChanged? && mid[j].kind.param != p;
    AfterIsSubset(mid, c);
  }

  lemma {:induction false} AfterIsSubset(events: seq<Event>, c: Cursor)
    ensures forall e :: e in After(events, c) ==> e in events
  {
    if events == [] {
    } else {
      AfterIsSubset(events[1..], c);
    }
  }

  /** Evicting from the front loses only what a client that has seen the last evicted event has seen. */
  lemma {:induction false} EvictCovers(ring: seq<Event>, capacity: nat, c: Cursor)
    requires Increasing(ring)
    requires |ring| > capacity ==> Sees(c, ring[|ring| - capacity - 1].time)
    ensures After(Evict(ring, capacity), c) == After(ring, c)
  {
    if |ring| > capacity {
      var k := |ring| - capacity;
      assert ring == ring[..k] + ring[k..];
      AfterConcat(ring[..k], ring[k..], c);
      forall e | e in ring[..k]
        ensures Sees(c, e.time)
      {
        assert e.time.AtMost(ring[k - 1].time);
      }
      AfterAllSeen(ring[..k], c);
    }
  }

  /** The state of a ring after a history: increasing, no newer and no older than
      the history, empty only before it starts, and newer than what was evicted. */
  ghost predicate RingOf(ring: Ring, history: seq<Event>) {
    && Increasing(ring.events)
    && Increasing(history)
    && (ring.events == [] <==> history == [])
    && (ring.events != [] ==> ring.events[|ring.events| - 1].time == history[|history| - 1].time)
    && (ring.events != [] ==> history[0].time.AtMost(ring.events[0].time))
    && (ring.gone.Some? ==> ring.events != [] && ring.gone.value.Before(ring.events[0].time))
  }

  /** A client at `c` recovers from the ring what the whole history would have told it. */
  ghost predicate Covers(ring: Ring, history: seq<Event>, c: Cursor, s: Store) {
    Reaches(ring, c) ==> Agree(Apply(s, After(ring.events, c)), Apply(s, After(history, c)))
  }

  /** An event the client has not seen: retained in the ring, it adds what it adds to the history. */
  lemma {:induction false} UnseenAppend(store: Store, ring: seq<Event>, history: seq<Event>, e: Event, c: Cursor,
                                        s: Store)
    requires Increasing(ring + [e]) && !Sees(c, e.time)
    requires Agree(Apply(s, After(ring, c)), Apply(s, After(history, c)))
    ensures Agree(Apply(s, After(Retain(store, ring, e), c)), Apply(s, After(history + [e], c)))
  {
    RetainCovers(store, ring, e, c, s);
    AfterConcat(history, [e], c);
    AfterOne(e, c);
    var a, b := After(ring, c), After(history, c);
    SnocApply(s, a, e);
    SnocApply(s, b, e);
    ApplyEventKeepsAgreement(Apply(s, a), Apply(s, b), e);
  }

  /** An event the client has seen adds nothing to either. */
  lemma {:induction false} SeenAppend(kept: seq<Event>, history: seq<Event>, e: Event, c: Cursor)
    requires Increasing(history + [e]) && Sees(c, e.time)
    requires Increasing(kept) && kept != [] && kept[|kept| - 1].time == e.time
    ensures After(kept, c) == [] == After(history + [e], c)
  {
    IncreasingPrefix(history, e, c);
    forall x | x in kept
      ensures Sees(c, x.time)
    {
      assert x.time.AtMost(kept[|kept| - 1].time);
    }
    AfterAllSeen(kept, c);
  }

  /** One append keeps the ring that of the history, and evicts from the front only. */
  lemma {:induction false} AppendStays(store: Store, ring: Ring, history: seq<Event>, e: Event, capacity: nat)
    requires RingOf(ring, history) && Increasing(history + [e]) && capacity >= 1
    ensures Increasing(ring.events + [e])
    ensures RingOf(AppendOne(store, ring, e, capacity), history + [e])
    ensures ring.gone.Some? ==> ring.gone.value.AtMost(AppendOne(store, ring, e, capacity).gone.value)
  {
    assert Increasing(ring.events + [e]) by {
      assert forall i | 0 <= i < |ring.events| :: ring.events[i].time.AtMost(ring.events[|ring.events| - 1].time);
      assert history != [] ==> (history + [e])[|history| - 1].time.Before((history + [e])[|history|].time);
    }
    RetainIncreasing(store, ring.events, e);
  }

  lemma {:induction false} AppendReaches(store: Store, ring: Ring, history: seq<Event>, e: Event, capacity: nat,
                                         c: Cursor)
    requires RingOf(ring, history) && Increasing(history + [e]) && capacity >= 1
    requires Reaches(AppendOne(store, ring, e, capacity), c)
    ensures Reaches(ring, c)
    ensures After(AppendOne(store, ring, e, capacity).events, c) == After(Retain(store, ring.events, e), c)
  {
    AppendStays(store, ring, history, e, capacity);
    RetainIncreasing(store, ring.events, e);
    EvictCovers(Retain(store, ring.events, e), capacity, c);
  }

  lemma {:induction false} AppendCovers(store: Store, ring: Ring, history: seq<Event>, e: Event, capacity: nat,
                                        c: Cursor, s: Store)
    requires RingOf(ring, history) && Increasing(history + [e]) && capacity >= 1
    requires Covers(ring, history, c, s)
    ensures RingOf(AppendOne(store, ring, e, capacity), history + [e])
    ensures Covers(AppendOne(store, ring, e, capacity), history + [e], c, s)
  {
    var kept := Retain(store, ring.events, e);
    AppendStays(store, ring, history, e, capacity);
    RetainIncreasing(store, ring.events, e);
    if Reaches(AppendOne(store, ring, e, capacity), c) {
      AppendReaches(store, ring, history, e, capacity, c);
      hide Retain, Agree, After, Evict;
      if Sees(c, e.time) {
        SeenAppend(kept, history, e, c);
      } else {
        UnseenAppend(store, ring.events, history, e, c, s);
      }
    }
  }

  lemma {:induction false} BatchCovers(store: Store, ring: Ring, history: seq<Event>, batch: seq<Event>,
                                       capacity: nat, c: Cursor, s: Store)
    requires RingOf(ring, history) && Increasing(history + batch) && capacity >= 1
    requires Covers(ring, history, c, s)
    ensures RingOf(AppendAll(store, ring, batch, capacity), history + batch)
    ensures Covers(AppendAll(store, ring, batch, capacity), history + batch, c, s)
    decreases |batch|
  {
    if batch == [] {
      assert history + batch == history;
    } else {
      var front, e := batch[..|batch| - 1], batch[|batch| - 1];
      assert history + batch == (history + front) + [e];
      assert Increasing(history + front) by {
        assert forall i | 0 <= i < |history + front| :: (history + front)[i] == (history + batch)[i];
      }
      BatchCovers(store, ring, history, front, capacity, c, s);
      AppendCovers(store, AppendAll(store, ring, front, capacity), history + front, e, capacity, c, s);
    }
  }

  // ---------------------------------------------------------------------
  // Whole runs
  // ---------------------------------------------------------------------

  /** The log of a stream whose events are judged one by one, each against a store of its own. */
  function LogOf(judges: seq<Store>, events: seq<Event>, capacity: nat): Ring
    requires |judges| == |events|
    decreases |events|
  {
    if events == [] then EMPTY else
    var n := |events| - 1;
    AppendOne(judges[n], LogOf(judges[..n], events[..n], capacity), events[n], capacity)
  }

  lemma {:induction false} PrefixIncreasing(events: seq<Event>, n: nat)
    requires Increasing(events) && n <= |events|
    ensures Increasing(events[..n])
  {
  }

  /** A log tells every client what the whole stream would have, unless an event that it has not seen was evicted. */
  lemma {:induction false} LogCovers(judges: seq<Store>, events: seq<Event>, capacity: nat, c: Cursor, s: Store)
    requires |judges| == |events| && Increasing(events) && capacity >= 1
    ensures RingOf(LogOf(judges, events, capacity), events)
    ensures Covers(LogOf(judges, events, capacity), events, c, s)
    decreases |events|
  {
    if events != [] {
      var n := |events| - 1;
      PrefixIncreasing(events, n);
      LogCovers(judges[..n], events[..n], capacity, c, s);
      assert events == events[..n] + [events[n]];
      AppendCovers(judges[n], LogOf(judges[..n], events[..n], capacity), events[..n], events[n], capacity, c, s);
    }
  }

  datatype Log = Log(store: Store, ring: Ring)

  /** One published batch: the ring is extended first, against the store the batch has not reached yet. */
  function Publish(log: Log, batch: seq<Event>, capacity: nat): Log {
    Log(Apply(log.store, batch), AppendAll(log.store, log.ring, batch, capacity))
  }

  function PublishAll(log: Log, batches: seq<seq<Event>>, capacity: nat): Log
    decreases |batches|
  {
    if batches == [] then log else
    Publish(PublishAll(log, batches[..|batches| - 1], capacity), batches[|batches| - 1], capacity)
  }

  function History(batches: seq<seq<Event>>): seq<Event>
    decreases |batches|
  {
    if batches == [] then [] else History(batches[..|batches| - 1]) + batches[|batches| - 1]
  }

  lemma {:induction false} RunCovers(base: Store, batches: seq<seq<Event>>, capacity: nat, c: Cursor, s: Store)
    requires Increasing(History(batches)) && capacity >= 1
    ensures var log := PublishAll(Log(base, EMPTY), batches, capacity);
            && log.store == Apply(base, History(batches))
            && RingOf(log.ring, History(batches))
            && Covers(log.ring, History(batches), c, s)
    decreases |batches|
  {
    if batches == [] {
    } else {
      var front, batch := batches[..|batches| - 1], batches[|batches| - 1];
      assert Increasing(History(front)) by {
        assert forall i | 0 <= i < |History(front)| :: History(front)[i] == History(batches)[i];
      }
      RunCovers(base, front, capacity, c, s);
      var log := PublishAll(Log(base, EMPTY), front, capacity);
      ApplyConcat(base, History(front), batch);
      BatchCovers(log.store, log.ring, History(front), batch, capacity, c, s);
    }
  }

  /** Replay is complete despite conflation and eviction.

      A client that has applied every event up to `cursor` and then applies the retained events after `cursor`
      ends in a store that agrees with the server's, for every history of batches with increasing times, every
      capacity and every cursor: an unseen event must not have been evicted, and that is all.
    */
  lemma {:induction false} ReplayIsComplete(base: Store, batches: seq<seq<Event>>, capacity: nat, cursor: Cursor)
    requires Increasing(History(batches)) && capacity >= 1
    requires Reaches(PublishAll(Log(base, EMPTY), batches, capacity).ring, cursor)
    ensures var log := PublishAll(Log(base, EMPTY), batches, capacity);
            var client := Apply(base, UpTo(History(batches), cursor));
            Agree(Apply(client, After(log.ring.events, cursor)), log.store)
  {
    var history := History(batches);
    var client := Apply(base, UpTo(history, cursor));
    RunCovers(base, batches, capacity, cursor, client);
    SeenThenUnseen(history, cursor);
    ApplyConcat(base, UpTo(history, cursor), After(history, cursor));
  }

  /** A ring that has evicted anything is full. */
  predicate FullIfEvicted(ring: Ring, capacity: nat) {
    ring.gone.Some? ==> |ring.events| == capacity
  }

  lemma {:induction false} RetainNeverShortens(store: Store, ring: seq<Event>, e: Event)
    ensures |ring| <= |Retain(store, ring, e)| <= |ring| + 1
  {
  }

  lemma {:induction false} AppendAllKeepsFull(store: Store, ring: Ring, events: seq<Event>, capacity: nat)
    requires FullIfEvicted(ring, capacity)
    ensures FullIfEvicted(AppendAll(store, ring, events, capacity), capacity)
    decreases |events|
  {
    if events != [] {
      var front, e := events[..|events| - 1], events[|events| - 1];
      AppendAllKeepsFull(store, ring, front, capacity);
      RetainNeverShortens(store, AppendAll(store, ring, front, capacity).events, e);
    }
  }

  lemma {:induction false} RunKeepsFull(base: Store, batches: seq<seq<Event>>, capacity: nat)
    ensures FullIfEvicted(PublishAll(Log(base, EMPTY), batches, capacity).ring, capacity)
    decreases |batches|
  {
    if batches != [] {
      var front := batches[..|batches| - 1];
      RunKeepsFull(base, front, capacity);
      var log := PublishAll(Log(base, EMPTY), front, capacity);
      AppendAllKeepsFull(log.store, log.ring, batches[|batches| - 1], capacity);
    }
  }

  /** A cursor that the retention check admits has lost nothing. One that it sends back has lost nothing either,
      exactly if it has seen the last evicted event, and so always while the ring is not full: then the resync is
      needless. */
  lemma {:induction false} RetentionCheck(base: Store, batches: seq<seq<Event>>, capacity: nat, cursor: EngineTime)
    requires Increasing(History(batches)) && capacity >= 1
    ensures var log := PublishAll(Log(base, EMPTY), batches, capacity);
            var client := Apply(base, UpTo(History(batches), Some(cursor)));
            var sentBack := log.ring.events != [] && cursor.Before(log.ring.events[0].time);
            && (!sentBack ==> Reaches(log.ring, Some(cursor)))
            && (sentBack ==>
                  (Reaches(log.ring, Some(cursor)) <==> log.ring.gone.None? || log.ring.gone.value.AtMost(cursor)))
            && (!sentBack || |log.ring.events| < capacity ==>
                  Agree(Apply(client, After(log.ring.events, Some(cursor))), log.store))
  {
    var log := PublishAll(Log(base, EMPTY), batches, capacity);
    RunCovers(base, batches, capacity, Some(cursor), base);
    RunKeepsFull(base, batches, capacity);
    if Reaches(log.ring, Some(cursor)) {
      ReplayIsComplete(base, batches, capacity, Some(cursor));
    }
  }
}
