/** Clients that followed one project when another takes its place, and clients that come without a cursor. */
module ProjectReplacement {
  import opened UiTypes
  import opened StoreSemantics
  import opened Conflation
  import opened ReplayLog
  import opened ReplayDefaults
  import opened UiReadModel

  /** The one event that a replaced engine starts its log with. */
  function Replaced(at: EngineTime): Event {
    Event(at, Custom("__transport.resync_required", None, ""))
  }

  /** What is published after a project has been replaced: the announcement, then what happens to the new project. */
  function Published(at: EngineTime, batches: seq<seq<Event>>): seq<seq<Event>> {
    [[Replaced(at)]] + batches
  }

  lemma {:induction false} PublishedHistory(at: EngineTime, batches: seq<seq<Event>>)
    ensures History(Published(at, batches)) == [Replaced(at)] + History(batches)
    decreases |batches|
  {
    var all := Published(at, batches);
    if batches == [] {
      assert all[..0] == [] && all == [[Replaced(at)]];
      assert History(all[..0]) == [];
    } else {
      var front := batches[..|batches| - 1];
      PublishedHistory(at, front);
      assert all[..|all| - 1] == Published(at, front);
    }
  }

  function Head(events: seq<Event>): EngineTime
    requires events != []
  {
    events[|events| - 1].time
  }

  function NewRing(base: Store, at: EngineTime, batches: seq<seq<Event>>, capacity: nat): seq<Event> {
    PublishAll(Log(base, EMPTY), Published(at, batches), capacity).ring.events
  }

  /** After a replacement a cursor of the old project is refused exactly if it is before the new front or ahead
      of the new head; and a client that is not refused is not told of the replacement by any event either. */
  lemma {:induction false} OldCursorIsRefused(base: Store, at: EngineTime, batches: seq<seq<Event>>, capacity: nat,
                                              cursor: EngineTime)
    requires Increasing([Replaced(at)] + History(batches)) && capacity >= 1
    ensures var history, ring := [Replaced(at)] + History(batches), NewRing(base, at, batches, capacity);
            && ring != [] && at.AtMost(ring[0].time)
            && (Refusal(Head(history), ring, Some(cursor)).None?
                <==> ring[0].time.AtMost(cursor) && cursor.AtMost(Head(history)))
            && (cursor.Before(at) ==> Refusal(Head(history), ring, Some(cursor)).Some?)
            && (Refusal(Head(history), ring, Some(cursor)).None? ==>
                  forall e | e in After(ring, Some(cursor)) :: at.Before(e.time))
  {
    var history, ring := [Replaced(at)] + History(batches), NewRing(base, at, batches, capacity);
    RingOfNewProject(base, at, batches, capacity);
    hide NewRing, Increasing;
    NewerThan(ring, cursor);
    forall e | e in After(ring, Some(cursor)) && ring[0].time.AtMost(cursor)
      ensures at.Before(e.time)
    {
      assert at.AtMost(cursor);
    }
  }

  lemma {:induction false} RingOfNewProject(base: Store, at: EngineTime, batches: seq<seq<Event>>, capacity: nat)
    requires Increasing([Replaced(at)] + History(batches)) && capacity >= 1
    ensures var history, ring := [Replaced(at)] + History(batches), NewRing(base, at, batches, capacity);
            && ring != [] && Increasing(ring)
            && at.AtMost(ring[0].time) && ring[0].time.AtMost(Head(history)) && Head(ring) == Head(history)
  {
    var ring := PublishAll(Log(base, EMPTY), Published(at, batches), capacity).ring;
    PublishedHistory(at, batches);
    RunCovers(base, Published(at, batches), capacity, None, base);
    assert RingOf(ring, [Replaced(at)] + History(batches));
    hide PublishAll, Covers;
    assert |ring.events| > 1 ==> ring.events[0].time.Before(ring.events[|ring.events| - 1].time);
  }

  lemma {:induction false} NewerThan(events: seq<Event>, cursor: EngineTime)
    ensures forall e | e in After(events, Some(cursor)) :: !e.time.AtMost(cursor)
  {
    if events != [] {
      NewerThan(events[1..], cursor);
    }
  }

  /** Before the announcement is published nobody at or before the new head is refused, and nobody is told anything. */
  lemma {:induction false} EmptyRingTellsNothing(now: EngineTime, cursor: EngineTime, nodes: seq<NodeDto>, scope: Scope)
    ensures Refusal(now, [], Some(cursor)).None? <==> !now.Before(cursor)
    ensures ReplayedEvents(nodes, [], Some(cursor), scope) == []
  {
    ReplayNothing(nodes, Some(cursor), scope);
  }

  /** A client of the old project whose cursor is where the new
      project has come to keeps the old project, whatever it is. */
  lemma {:induction false} OldProjectIsKept(held: Store, base: Store, at: EngineTime, batches: seq<seq<Event>>,
                                            capacity: nat)
    requires Increasing([Replaced(at)] + History(batches)) && capacity >= 1
    ensures var history, ring := [Replaced(at)] + History(batches), NewRing(base, at, batches, capacity);
            && Refusal(Head(history), ring, Some(Head(history))).None?
            && Apply(held, After(ring, Some(Head(history)))) == held
  {
    var history, ring := [Replaced(at)] + History(batches), NewRing(base, at, batches, capacity);
    RingOfNewProject(base, at, batches, capacity);
    forall e | e in ring
      ensures Sees(Some(Head(history)), e.time)
    {
      var i :| 0 <= i < |ring| && ring[i] == e;
      assert i < |ring| - 1 ==> ring[i].time.Before(ring[|ring| - 1].time);
    }
    AfterAllSeen(ring, Some(Head(history)));
  }

  // ---------------------------------------------------------------------
  // Without a cursor
  // ---------------------------------------------------------------------

  /** Without a cursor nobody is refused. Who holds the store the ring started from ends in the
      server's, defaults aside, if nothing was evicted, and so while the ring is not full. */
  lemma {:induction false} WithoutCursor(base: Store, batches: seq<seq<Event>>, capacity: nat, now: EngineTime)
    requires Increasing(History(batches)) && capacity >= 1
    ensures var log := PublishAll(Log(base, EMPTY), batches, capacity);
            && Refusal(now, log.ring.events, None).None?
            && (log.ring.gone.None? || |log.ring.events| < capacity ==>
                  Agree(Apply(base, After(log.ring.events, None)), log.store))
  {
    var log := PublishAll(Log(base, EMPTY), batches, capacity);
    RunKeepsFull(base, batches, capacity);
    if log.ring.gone.None? {
      ReplayIsComplete(base, batches, capacity, None);
      NothingSeen(History(batches));
    }
  }

  lemma {:induction false} NothingSeen(events: seq<Event>)
    ensures UpTo(events, None) == []
  {
    if events != [] {
      NothingSeen(events[1..]);
    }
  }

  const LATER := Event(EngineTime(0, 0, 2), Custom("", None, ""))

  /** ... and misses what was evicted: here the only change of a value. */
  lemma {:induction false} WithoutCursorCanMiss()
    ensures var base := Knob(Int(1), Some(Int(5)));
            var log := PublishAll(Log(base, EMPTY), [[BACK_TO_DEFAULT, LATER]], 1);
            && log.store == Knob(Int(5), None)
            && Apply(base, After(log.ring.events, None)) == base
  {
    var base := Knob(Int(1), Some(Int(5)));
    var batch, none: seq<seq<Event>> := [BACK_TO_DEFAULT, LATER], [];
    assert [batch][..0] == none;
    assert PublishAll(Log(base, EMPTY), none, 1) == Log(base, EMPTY);
    assert [] + [BACK_TO_DEFAULT] == [BACK_TO_DEFAULT] && [BACK_TO_DEFAULT] + [LATER] == batch;
    AppendLast(base, EMPTY, [], BACK_TO_DEFAULT, 1);
    AppendLast(base, EMPTY, [BACK_TO_DEFAULT], LATER, 1);
    assert PreviousIndex(base, [], 1) == -1;
    assert AppendOne(base, EMPTY, BACK_TO_DEFAULT, 1) == Ring([BACK_TO_DEFAULT], None);
    assert AppendOne(base, Ring([BACK_TO_DEFAULT], None), LATER, 1).events == [LATER];
    ExampleSteps();
    ApplyTwo(base, BACK_TO_DEFAULT, LATER);
    AfterNoneSeen([LATER], None);
    SnocApply(base, [], LATER);
    assert [] + [LATER] == [LATER];
  }
}
