/** From the live engine to a client that comes late: the engine's
    log, the captures, the read model's ring, the replay. */
module LateClients {
  import opened UiTypes
  import opened StoreSemantics
  import opened Conflation
  import opened ReplayLog
  import opened ReplayDefaults
  import opened OrderedTrees
  import opened TreeRuns
  import opened ParamEngine

  /** Where somebody stands who has seen all these events: where the next capture starts. */
  function Head(events: seq<Event>): Cursor {
    if events == [] then None else Some(events[|events| - 1].time)
  }

  /** An engine's stream, the nodes each event was judged against, and how far the stream had come at each capture. The
      first cut is where the read model took its snapshot. */
  datatype Publication = Publication(stream: seq<Event>, judges: seq<Store>, capacity: nat, cuts: seq<nat>) {

    function LogAt(cut: nat): Ring
      requires |judges| == |stream| && cut <= |stream|
    {
      LogOf(judges[..cut], stream[..cut], capacity)
    }

    /** What a capture collects at `to` after one at `from`. */
    function Captured(from: nat, to: nat): seq<Event>
      requires |judges| == |stream| && from <= |stream| && to <= |stream|
    {
      After(LogAt(to).events, Head(stream[..from]))
    }

    predicate IsCapture(from: nat, to: nat) {
      && |judges| == |stream|
      && from <= to <= |stream|
      && Reaches(LogAt(to), Head(stream[..from]))
    }

    /** Events have increasing times, and no event was evicted from the log before it was captured. */
    ghost predicate Valid() {
      && |judges| == |stream| && capacity >= 1 && Increasing(stream)
      && cuts != [] && cuts[0] <= |stream|
      && forall i | 0 <= i < |cuts| - 1 :: IsCapture(cuts[i], cuts[i + 1])
    }

    function Batches(n: nat): seq<seq<Event>>
      requires Valid() && n < |cuts|
    {
      if n == 0 then [] else
      assert IsCapture(cuts[n - 1], cuts[n - 1 + 1]);
      Batches(n - 1) + [Captured(cuts[n - 1], cuts[n])]
    }

    function Cut(n: nat): (r: nat)
      requires Valid() && n < |cuts|
      ensures r <= |stream|
    {
      assert n > 0 ==> IsCapture(cuts[n - 1], cuts[n - 1 + 1]);
      cuts[n]
    }

    /** All captured batches, and the store of the snapshot they follow. */
    function AllBatches(): seq<seq<Event>>
      requires Valid()
    {
      Batches(|cuts| - 1)
    }

    function Base(live: Store): Store
      requires Valid()
    {
      Apply(live, stream[..cuts[0]])
    }

    /** Where the stream has led at the last capture. */
    function Latest(live: Store): Store
      requires Valid()
    {
      Apply(live, stream[..Cut(|cuts| - 1)])
    }

    function ModelRing(live: Store, capacity: nat): Ring
      requires Valid()
    {
      PublishAll(Log(Base(live), EMPTY), AllBatches(), capacity).ring
    }
  }

  // ---------------------------------------------------------------------
  // One capture
  // ---------------------------------------------------------------------

  /** What is new since a capture is the rest of the stream. */
  lemma {:induction false} NewSinceCapture(stream: seq<Event>, from: nat, to: nat)
    requires Increasing(stream) && from <= to <= |stream|
    ensures After(stream[..to], Head(stream[..from])) == stream[from..to]
  {
    var c := Head(stream[..from]);
    assert stream[..to] == stream[..from] + stream[from..to];
    forall e | e in stream[..from]
      ensures Sees(c, e.time)
    {
      assert e.time.AtMost(stream[from - 1].time);
    }
    forall e | e in stream[from..to]
      ensures !Sees(c, e.time)
    {
      assert from > 0 ==> stream[from - 1].time.Before(e.time);
    }
    AfterConcat(stream[..from], stream[from..to], c);
    AfterAllSeen(stream[..from], c);
    AfterNoneSeen(stream[from..to], c);
  }

  lemma {:induction false} ApplyOn(s: Store, stream: seq<Event>, from: nat, to: nat)
    requires from <= to <= |stream|
    ensures Apply(s, stream[..to]) == Apply(Apply(s, stream[..from]), stream[from..to])
  {
    assert stream[..to] == stream[..from] + stream[from..to];
    ApplyConcat(s, stream[..from], stream[from..to]);
  }

  lemma {:induction false} AgreeTransitive(a: Store, b: Store, c: Store)
    requires Agree(a, b) && Agree(b, c)
    ensures Agree(a, c)
  {
  }

  /** A store that followed the engine up to one capture follows it to the next, although the log has conflated events,
      also with events that were captured before. */
  lemma {:induction false} CaptureKeepsAgreement(live: Store, pub: Publication, from: nat, to: nat, s: Store)
    requires pub.capacity >= 1 && Increasing(pub.stream) && pub.IsCapture(from, to)
    requires Agree(s, Apply(live, pub.stream[..from]))
    ensures Agree(Apply(s, pub.Captured(from, to)), Apply(live, pub.stream[..to]))
  {
    var c, t, batch := Head(pub.stream[..from]), Apply(live, pub.stream[..from]), pub.Captured(from, to);
    PrefixIncreasing(pub.stream, to);
    NewSinceCapture(pub.stream, from, to);
    ApplyOn(live, pub.stream, from, to);
    LogCovers(pub.judges[..to], pub.stream[..to], pub.capacity, c, t);
    ApplyKeepsAgreement(s, t, batch);
    AgreeTransitive(Apply(s, batch), Apply(t, batch), Apply(live, pub.stream[..to]));
  }

  /** A capture is exact, remembered defaults included, if what it collects starts where the read model is; and, where
      values change in a chain, only if every parameter that starts elsewhere is inserted, removed or patched later;
      and so, without graph transactions, only then. */
  lemma {:induction false} CaptureIsExact(live: Store, pub: Publication, from: nat, to: nat)
    requires pub.capacity >= 1 && Increasing(pub.stream) && pub.IsCapture(from, to)
    requires Anchored(live, pub.stream[..to])
    ensures var s, batch := Apply(live, pub.stream[..from]), pub.Captured(from, to);
            && (StartsWhereShown(s, batch) ==> Apply(s, batch) == Apply(live, pub.stream[..to]) && Anchored(s, batch))
            && (Chained(live, pub.stream[..to]) && Apply(s, batch) == Apply(live, pub.stream[..to]) ==>
                  forall i | BadStart(s, batch, i) :: !LeftAlone(batch, i))
            && (Chained(live, pub.stream[..to]) && (forall e | e in batch :: IsFeedback(e)) ==>
                  (Apply(s, batch) == Apply(live, pub.stream[..to]) ==> StartsWhereShown(s, batch)))
  {
    hide Apply, StartsWhereShown, BadStart, LeftAlone, Chained, Anchored, IsFeedback;
    var c, s := Head(pub.stream[..from]), Apply(live, pub.stream[..from]);
    PrefixIncreasing(pub.stream, to);
    NewSinceCapture(pub.stream, from, to);
    ApplyOn(live, pub.stream, from, to);
    assert pub.stream[..to] == pub.stream[..from] + pub.stream[from..to];
    AnchoredConcat(live, pub.stream[..from], pub.stream[from..to]);
    ChainedConcat(live, pub.stream[..from], pub.stream[from..to]);
    LogExact(pub.judges[..to], pub.stream[..to], pub.capacity, c, s);
    ExactIfStartsWhereShown(s, pub.Captured(from, to), pub.stream[from..to]);
  }

  lemma {:induction false} AfterIncreasing(events: seq<Event>, c: Cursor)
    requires Increasing(events)
    ensures Increasing(After(events, c))
    ensures forall e :: e in After(events, c) ==> e in events && !Sees(c, e.time)
    decreases |events|
  {
    if events != [] {
      AfterIncreasing(events[1..], c);
    }
  }

  /** What a capture collects is increasing, newer than the capture before it and no newer than the stream. */
  lemma {:induction false} CaptureTimes(pub: Publication, from: nat, to: nat)
    requires pub.capacity >= 1 && Increasing(pub.stream) && pub.IsCapture(from, to)
    ensures Increasing(pub.Captured(from, to))
    ensures forall e | e in pub.Captured(from, to) ::
              !Sees(Head(pub.stream[..from]), e.time) && Sees(Head(pub.stream[..to]), e.time)
  {
    var log, c := pub.LogAt(to).events, Head(pub.stream[..from]);
    PrefixIncreasing(pub.stream, to);
    LogCovers(pub.judges[..to], pub.stream[..to], pub.capacity, c, map[]);
    AfterIncreasing(log, c);
    forall e | e in pub.Captured(from, to)
      ensures Sees(Head(pub.stream[..to]), e.time)
    {
      var i :| 0 <= i < |log| && log[i] == e;
      assert i < |log| - 1 ==> log[i].time.Before(log[|log| - 1].time);
    }
  }

  // ---------------------------------------------------------------------
  // All captures
  // ---------------------------------------------------------------------

  /** `received` brings a store from `base` to what the stream brings it to from `live`, in increasing order. */
  ghost predicate Follows(base: Store, received: seq<Event>, live: Store, stream: seq<Event>) {
    && Increasing(received)
    && (forall e | e in received :: Sees(Head(stream), e.time))
    && Agree(Apply(base, received), Apply(live, stream))
  }

  lemma {:induction false} CaptureFollows(base: Store, received: seq<Event>, live: Store, pub: Publication, from: nat,
                                          to: nat)
    requires pub.capacity >= 1 && Increasing(pub.stream) && pub.IsCapture(from, to)
    requires Follows(base, received, live, pub.stream[..from])
    ensures Follows(base, received + pub.Captured(from, to), live, pub.stream[..to])
  {
    hide Agree, Apply, After, LogOf;
    CaptureTimes(pub, from, to);
    CaptureKeepsAgreement(live, pub, from, to, Apply(base, received));
    ApplyConcat(base, received, pub.Captured(from, to));
    HeadsGrow(pub.stream, from, to);
  }

  lemma {:induction false} HeadsGrow(stream: seq<Event>, from: nat, to: nat)
    requires Increasing(stream) && from <= to <= |stream|
    ensures forall t :: Sees(Head(stream[..from]), t) ==> Sees(Head(stream[..to]), t)
  {
    if 0 < from < to {
      assert stream[from - 1].time.Before(stream[to - 1].time);
    }
  }

  lemma {:induction false} HistoryGrows(pub: Publication, n: nat)
    requires pub.Valid() && n + 1 < |pub.cuts|
    ensures pub.IsCapture(pub.cuts[n], pub.cuts[n + 1])
    ensures History(pub.Batches(n + 1)) == History(pub.Batches(n)) + pub.Captured(pub.cuts[n], pub.cuts[n + 1])
  {
    var all, front := pub.Batches(n + 1), pub.Batches(n);
    assert all[..|all| - 1] == front;
  }

  /** After every capture the read model's store agrees with the engine, and what it has received is increasing. */
  lemma {:induction false} PublicationFollows(live: Store, pub: Publication, n: nat)
    requires pub.Valid() && n < |pub.cuts|
    ensures Follows(pub.Base(live), History(pub.Batches(n)), live, pub.stream[..pub.Cut(n)])
  {
    if n > 0 {
      PublicationFollows(live, pub, n - 1);
      HistoryGrows(pub, n - 1);
      CaptureFollows(pub.Base(live), History(pub.Batches(n - 1)), live, pub, pub.cuts[n - 1], pub.cuts[n]);
    }
  }

  /** Every capture starts where the read model is. */
  ghost predicate CapturesStartWhereShown(live: Store, pub: Publication, n: nat)
    requires pub.Valid() && n < |pub.cuts|
  {
    forall i | 0 <= i < n ::
      pub.IsCapture(pub.cuts[i], pub.cuts[i + 1])
      && StartsWhereShown(Apply(live, pub.stream[..pub.cuts[i]]), pub.Captured(pub.cuts[i], pub.cuts[i + 1]))
  }

  /** Then the read model's store is the engine's, and what it has received is fit for exact replays. */
  lemma {:induction false} PublicationIsExact(live: Store, pub: Publication, n: nat)
    requires pub.Valid() && n < |pub.cuts| && Anchored(live, pub.stream)
    requires CapturesStartWhereShown(live, pub, n)
    ensures Apply(pub.Base(live), History(pub.Batches(n))) == Apply(live, pub.stream[..pub.Cut(n)])
    ensures Anchored(pub.Base(live), History(pub.Batches(n)))
  {
    if n > 0 {
      PublicationIsExact(live, pub, n - 1);
      HistoryGrows(pub, n - 1);
      AnchoredUpTo(live, pub.stream, pub.cuts[n]);
      assert StartsWhereShown(Apply(live, pub.stream[..pub.cuts[n - 1]]),
                              pub.Captured(pub.cuts[n - 1], pub.cuts[n - 1 + 1]));
      hide Anchored, StartsWhereShown, Apply, After, LogOf, History;
      CaptureStaysExact(pub.Base(live), History(pub.Batches(n - 1)), live, pub, pub.cuts[n - 1], pub.cuts[n]);
    }
  }

  lemma {:induction false} AnchoredUpTo(s: Store, stream: seq<Event>, cut: nat)
    requires Anchored(s, stream) && cut <= |stream|
    ensures Anchored(s, stream[..cut])
  {
    assert stream == stream[..cut] + stream[cut..];
    AnchoredConcat(s, stream[..cut], stream[cut..]);
  }

  lemma {:induction false} CaptureStaysExact(base: Store, received: seq<Event>, live: Store, pub: Publication,
                                             from: nat, to: nat)
    requires pub.capacity >= 1 && Increasing(pub.stream) && pub.IsCapture(from, to) && Anchored(live, pub.stream[..to])
    requires StartsWhereShown(Apply(live, pub.stream[..from]), pub.Captured(from, to))
    requires Apply(base, received) == Apply(live, pub.stream[..from]) && Anchored(base, received)
    ensures Apply(base, received + pub.Captured(from, to)) == Apply(live, pub.stream[..to])
    ensures Anchored(base, received + pub.Captured(from, to))
  {
    CaptureIsExact(live, pub, from, to);
    ApplyConcat(base, received, pub.Captured(from, to));
    AnchoredConcat(base, received, pub.Captured(from, to));
  }

  // ---------------------------------------------------------------------
  // Late clients
  // ---------------------------------------------------------------------

  /** What a client shows that has seen everything captured up to `cursor` and then replays the read model's ring. */
  function Shown(live: Store, pub: Publication, capacity: nat, cursor: Cursor): Store
    requires pub.Valid()
  {
    Apply(Apply(pub.Base(live), UpTo(History(pub.AllBatches()), cursor)),
          After(pub.ModelRing(live, capacity).events, cursor))
  }

  /** Late clients converge with the live engine.

      The engine conflates its log; the read model captures from the log, and conflates and evicts in a ring of its own;
      a client that has seen everything up to `cursor` replays the ring from there. Whatever was conflated where, the
      client ends where the stream leads, remembered defaults aside, unless an event was evicted before it was seen. */
  lemma {:induction false} LateClientsConverge(live: Store, pub: Publication, capacity: nat, cursor: Cursor)
    requires pub.Valid() && capacity >= 1 && Reaches(pub.ModelRing(live, capacity), cursor)
    ensures Agree(Shown(live, pub, capacity, cursor), pub.Latest(live))
  {
    var base, batches := pub.Base(live), pub.AllBatches();
    PublicationFollows(live, pub, |pub.cuts| - 1);
    ReplayLog.ReplayIsComplete(base, batches, capacity, cursor);
    RunCovers(base, batches, capacity, cursor, base);
    AgreeTransitive(Shown(live, pub, capacity, cursor), Apply(base, History(batches)), pub.Latest(live));
  }

  /** They end there exactly, remembered defaults included, if every
      capture and the replay start where their receivers are. */
  lemma {:induction false} LateClientsAreExact(live: Store, pub: Publication, capacity: nat, cursor: Cursor)
    requires pub.Valid() && capacity >= 1 && Reaches(pub.ModelRing(live, capacity), cursor)
    requires Anchored(live, pub.stream) && CapturesStartWhereShown(live, pub, |pub.cuts| - 1)
    requires StartsWhereShown(Apply(pub.Base(live), UpTo(History(pub.AllBatches()), cursor)),
                              After(pub.ModelRing(live, capacity).events, cursor))
    ensures Shown(live, pub, capacity, cursor) == pub.Latest(live)
  {
    var base, batches := pub.Base(live), pub.AllBatches();
    PublicationFollows(live, pub, |pub.cuts| - 1);
    PublicationIsExact(live, pub, |pub.cuts| - 1);
    ReplayIsExact(base, batches, capacity, cursor);
    RunCovers(base, batches, capacity, cursor, base);
  }

  /** When the stream is that of an engine's parameter edits, late clients show the engine's live parameters. */
  lemma {:induction false} LateClientsSeeParameters(initial: Nodes, nodes: Nodes, pub: Publication, capacity: nat,
                                                    cursor: Cursor, p: NodeId)
    requires pub.Valid() && capacity >= 1 && Reaches(pub.ModelRing(Project(initial), capacity), cursor)
    requires EventSourced(initial, pub.stream[..pub.Cut(|pub.cuts| - 1)], nodes) && IsParam(nodes, p)
    ensures var shown := Shown(Project(initial), pub, capacity, cursor);
            && HoldsParam(shown, p)
            && shown[p].data.param.value == nodes[p].state.value
            && shown[p].data.param.constraints == nodes[p].state.constraints
  {
    LateClientsConverge(Project(initial), pub, capacity, cursor);
    hide Chained;
    var shown := Shown(Project(initial), pub, capacity, cursor);
    assert EraseDefault(shown[p]) == EraseDefault(Project(nodes)[p]);
  }

  /** When it is that of a live tree, late clients show that tree. */
  lemma {:induction false} LateClientsSeeTheTree(trees: seq<Tree>, changes: seq<Change>,
                                                 parents: NodeId -> Option<NodeId>, pub: Publication, capacity: nat,
                                                 cursor: Cursor)
    requires IsRun(trees, changes, pub.stream, parents)
    requires pub.Valid() && capacity >= 1 && Reaches(pub.ModelRing(Flatten(trees[0]), capacity), cursor)
    ensures var n := pub.Cut(|pub.cuts| - 1);
            && n < |trees| && WellFormed(trees[n])
            && Agree(Shown(Flatten(trees[0]), pub, capacity, cursor), Flatten(trees[n]))
  {
    LateClientsConverge(Flatten(trees[0]), pub, capacity, cursor);
    StoreFollowsTree(trees, changes, pub.stream, parents, pub.Cut(|pub.cuts| - 1));
  }

  /** The same value reaching the same client can carry a different default: the engine's log conflates across a
      capture. The parameter's default is 5. Its return to 5 is captured; its next write is merged with that captured
      event, and the read model is told a change that starts from 1, and remembers 1. */
  lemma {:induction false} CaptureCanChangeADefault()
    ensures var away, home, gone := Knob(Int(1), Some(Int(5))), Knob(Int(5), None), Knob(Int(7), Some(Int(5)));
            var first := Retain(home, [OPENING], BACK_TO_DEFAULT);
            var second := Retain(gone, first, AWAY_AGAIN);
            && Apply(away, After(first, Some(OPENING.time))) == home
            && Apply(home, After(second, Some(BACK_TO_DEFAULT.time))) == Knob(Int(7), Some(Int(1)))
            && ApplyEvent(home, AWAY_AGAIN) == gone
  {
    var home, gone := Knob(Int(5), None), Knob(Int(7), Some(Int(5)));
    assert PreviousIndex(home, [OPENING], 1) == -1;
    assert PreviousIndex(gone, [OPENING, BACK_TO_DEFAULT], 1) == 1;
    assert Retain(home, [OPENING], BACK_TO_DEFAULT) == [OPENING, BACK_TO_DEFAULT];
    assert Retain(gone, [OPENING, BACK_TO_DEFAULT], AWAY_AGAIN) == [OPENING, MERGED];
    ExampleSteps();
    ExampleCut();
    AfterOne(BACK_TO_DEFAULT, Some(OPENING.time));
    assert [OPENING, BACK_TO_DEFAULT][1..] == [BACK_TO_DEFAULT];
    SnocApply(Knob(Int(1), Some(Int(5))), [], BACK_TO_DEFAULT);
    assert [] + [BACK_TO_DEFAULT] == [BACK_TO_DEFAULT];
    SnocApply(home, [], MERGED);
    assert [] + [MERGED] == [MERGED];
  }
}
