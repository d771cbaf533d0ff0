/** Remembered defaults: when a replay is exact, and not only up to them. */
module ReplayDefaults {
  import opened UiTypes
  import opened StoreSemantics
  import opened Conflation
  import opened ReplayLog

  // ---------------------------------------------------------------------
  // Streams in which no event makes a client remember a wrong default
  // ---------------------------------------------------------------------

  /** A parameter event starts from the value in `s`, unless a default is shown already: then its start is not read. */
  ghost predicate Anchors(s: Store, e: Event) {
    e.kind.ParamChanged? && HoldsParam(s, e.kind.param) ==>
      s[e.kind.param].data.param.defaultValue.Some? || s[e.kind.param].data.param.value == e.kind.oldValue
  }

  ghost predicate Anchored(s: Store, events: seq<Event>)
    decreases |events|
  {
    events == [] ||
    (Anchored(s, events[..|events| - 1]) && Anchors(Apply(s, events[..|events| - 1]), events[|events| - 1]))
  }

  lemma {:induction false} ChainedIsAnchored(s: Store, events: seq<Event>)
    requires Chained(s, events)
    ensures Anchored(s, events)
    decreases |events|
  {
    if events != [] {
      ChainedIsAnchored(s, events[..|events| - 1]);
    }
  }

  lemma {:induction false} AnchoredConcat(s: Store, a: seq<Event>, b: seq<Event>)
    ensures Anchored(s, a + b) <==> Anchored(s, a) && Anchored(Apply(s, a), b)
    decreases |b|
  {
    if b == [] {
      assert a + b == a;
    } else {
      var front := b[..|b| - 1];
      assert (a + b)[..|a + b| - 1] == a + front;
      AnchoredConcat(s, a, front);
      ApplyConcat(s, a, front);
    }
  }

  lemma {:induction false} AnchoredSnoc(s: Store, a: seq<Event>, e: Event)
    ensures Anchored(s, a + [e]) <==> Anchored(s, a) && Anchors(Apply(s, a), e)
  {
    assert (a + [e])[..|a + [e]| - 1] == a;
  }

  lemma {:induction false} AnchoredWithoutParam(s: Store, x: Event, mid: seq<Event>)
    requires x.kind.ParamChanged? && AvoidsParam(mid, x.kind.param)
    requires Anchored(ApplyEvent(s, x), mid)
    ensures Anchored(s, mid)
    decreases |mid|
  {
    if mid != [] {
      var front := mid[..|mid| - 1];
      AnchoredWithoutParam(s, x, front);
      ParamEventMovesToEnd(s, x, front);
    }
  }

  /** Merging two events of a run, where neither makes a client remember a wrong default, is exact. */
  lemma {:induction false} AnchoredRun(s: Store, x: Event, mid: seq<Event>, e: Event)
    requires x.kind.ParamChanged? && e.kind.ParamChanged? && x.kind.param == e.kind.param
    requires AvoidsParam(mid, x.kind.param)
    requires Anchored(s, [x] + mid + [e])
    ensures Apply(s, mid + [KeepOldValue(e, x)]) == Apply(s, [x] + mid + [e])
    ensures Anchored(s, mid + [KeepOldValue(e, x)])
  {
    var merged := KeepOldValue(e, x);
    var t := Apply(s, mid);
    SnocApply(s, mid, merged);
    SnocApply(s, [x] + mid, e);
    ApplyConcat(s, [x], mid);
    SnocApply(s, [], x);
    assert [] + [x] == [x];
    ParamEventMovesToEnd(s, x, mid);
    AnchoredSnoc(s, [x] + mid, e);
    AnchoredConcat(s, [x], mid);
    assert [x][..0] == [];
    assert Anchors(s, x) by {
      assert Anchored(s, [x]);
      assert Apply(s, []) == s;
    }
    AnchoredWithoutParam(s, x, mid);
    AvoidingLeavesParam(s, mid, x.kind.param);
    AnchoredSnoc(s, mid, merged);
  }

  // ---------------------------------------------------------------------
  // Events that start elsewhere than the client is
  // ---------------------------------------------------------------------

  /** `r[i]` was merged with events the client has seen: it differs from `t[i]` in where
      it starts, it is the first about its parameter, and only values change before it. */
  ghost predicate Stale(r: seq<Event>, t: seq<Event>, i: nat)
    requires i < |r| == |t|
  {
    && r[i].kind.ParamChanged? && t[i].kind.ParamChanged?
    && r[i] == KeepOldValue(t[i], r[i])
    && AvoidsParam(r[..i], r[i].kind.param)
  }

  /** `t` is `r` with every stale event started where the client is. */
  ghost predicate Straightens(r: seq<Event>, t: seq<Event>) {
    |r| == |t| && forall i | 0 <= i < |r| :: r[i] == t[i] || Stale(r, t, i)
  }

  /** What is retained, straightened, is exact for a client. */
  ghost predicate StraightensTo(s: Store, r: seq<Event>, unseen: seq<Event>) {
    exists t :: IsStraightened(s, r, t, unseen)
  }

  ghost predicate IsStraightened(s: Store, r: seq<Event>, t: seq<Event>, unseen: seq<Event>) {
    Straightens(r, t) && Anchored(s, t) && Apply(s, t) == Apply(s, unseen) && (Chained(s, unseen) ==> Chained(s, t))
  }

  lemma {:induction false} StraightensKinds(r: seq<Event>, t: seq<Event>, p: NodeId)
    requires Straightens(r, t) && AvoidsParam(r, p)
    ensures AvoidsParam(t, p)
  {
    forall e | e in t
      ensures e.kind.ParamChanged? && e.kind.param != p
    {
      var i :| 0 <= i < |t| && t[i] == e;
      assert r[i] in r;
    }
  }

  lemma {:induction false} StraightensSnoc(r: seq<Event>, t: seq<Event>, a: Event, b: Event)
    requires Straightens(r, t)
    requires a == b || (a.kind.ParamChanged? && b.kind.ParamChanged? && a == KeepOldValue(b, a)
                        && AvoidsParam(r, a.kind.param))
    ensures Straightens(r + [a], t + [b])
  {
    var r', t' := r + [a], t + [b];
    forall i | 0 <= i < |r'|
      ensures r'[i] == t'[i] || Stale(r', t', i)
    {
      assert r'[..i] == if i < |r| then r[..i] else r;
    }
  }

  lemma {:induction false} StraightensSlice(r: seq<Event>, t: seq<Event>, i: nat)
    requires Straightens(r, t) && i < |r|
    requires r[i].kind.ParamChanged?
    ensures Straightens(r[..i] + r[i + 1..], t[..i] + t[i + 1..])
  {
    var r', t' := r[..i] + r[i + 1..], t[..i] + t[i + 1..];
    forall k | 0 <= k < |r'|
      ensures r'[k] == t'[k] || Stale(r', t', k)
    {
      var j := if k < i then k else k + 1;
      assert r'[k] == r[j] && t'[k] == t[j];
      if r[j] != t[j] {
        assert Stale(r, t, j);
        forall e | e in r'[..k]
          ensures e in r[..j]
        {
          var m :| 0 <= m < k && r'[m] == e;
          assert r[..j][if m < i then m else m + 1] == e;
        }
      }
    }
  }

  lemma {:induction false} SameEndStaysSame(s: Store, t: seq<Event>, unseen: seq<Event>, e: Event)
    requires Anchored(s, t) && Apply(s, t) == Apply(s, unseen) && (Chained(s, unseen) ==> Chained(s, t))
    requires Anchors(Apply(s, unseen), e)
    ensures Anchored(s, t + [e]) && Apply(s, t + [e]) == Apply(s, unseen + [e])
    ensures Chained(s, unseen + [e]) ==> Chained(s, t + [e])
  {
    AnchoredSnoc(s, t, e);
    SnocApply(s, t, e);
    SnocApply(s, unseen, e);
    assert (unseen + [e])[..|unseen + [e]| - 1] == unseen && (t + [e])[..|t + [e]| - 1] == t;
  }

  /** A client that steps back for a merged event: the newer event stands, but starts where the older one did. */
  lemma {:induction false} SeenMergeStraightens(s: Store, r: seq<Event>, unseen: seq<Event>, x: Event, e: Event)
    requires StraightensTo(s, r, unseen) && Anchors(Apply(s, unseen), e)
    requires x.kind.ParamChanged? && e.kind.ParamChanged? && x.kind.param == e.kind.param
    requires AvoidsParam(r, e.kind.param)
    ensures StraightensTo(s, r + [KeepOldValue(e, x)], unseen + [e])
  {
    var t :| IsStraightened(s, r, t, unseen);
    StraightensSnoc(r, t, KeepOldValue(e, x), e);
    SameEndStaysSame(s, t, unseen, e);
    assert IsStraightened(s, r + [KeepOldValue(e, x)], t + [e], unseen + [e]);
  }

  lemma {:induction false} PlainStraightens(s: Store, r: seq<Event>, unseen: seq<Event>, e: Event)
    requires StraightensTo(s, r, unseen) && Anchors(Apply(s, unseen), e)
    ensures StraightensTo(s, r + [e], unseen + [e])
  {
    var t :| IsStraightened(s, r, t, unseen);
    StraightensSnoc(r, t, e, e);
    SameEndStaysSame(s, t, unseen, e);
    assert IsStraightened(s, r + [e], t + [e], unseen + [e]);
  }

  /** A stream that straightens another is cut where the other is, and
      stays straightened when one event is merged away. */
  lemma {:induction false} TakenOutStraightens(a: seq<Event>, x: Event, b: seq<Event>, t: seq<Event>, e: Event)
    returns (ta: seq<Event>, tx: Event, tb: seq<Event>)
    requires Straightens(a + [x] + b, t) && x.kind.ParamChanged? && e.kind.ParamChanged? && x.kind.param == e.kind.param
    requires AvoidsParam(b, e.kind.param)
    ensures t == ta + [tx] + tb
    ensures tx.kind.ParamChanged? && tx.kind.param == e.kind.param && AvoidsParam(tb, e.kind.param)
    ensures Straightens(a + b + [KeepOldValue(e, x)], ta + tb + [KeepOldValue(e, tx)])
  {
    var r, i := a + [x] + b, |a|;
    ta, tx, tb := t[..i], t[i], t[i + 1..];
    assert r[..i] == a && r[i] == x && r[i + 1..] == b;
    assert x == tx || Stale(r, t, i);
    StraightensSlice(r, t, i);
    forall y | y in tb
      ensures y.kind.ParamChanged? && y.kind.param != e.kind.param
    {
      var k :| i + 1 <= k < |t| && t[k] == y;
      assert r[k] in b;
    }
    StraightensSnoc(a + b, ta + tb, KeepOldValue(e, x), KeepOldValue(e, tx));
  }

  lemma {:induction false} MergeIsExact(s: Store, pre: seq<Event>, x: Event, mid: seq<Event>, e: Event)
    requires x.kind.ParamChanged? && e.kind.ParamChanged? && x.kind.param == e.kind.param
    requires AvoidsParam(mid, e.kind.param) && Anchored(s, pre + [x] + mid + [e])
    ensures Apply(s, pre + mid + [KeepOldValue(e, x)]) == Apply(s, pre + [x] + mid + [e])
    ensures Anchored(s, pre + mid + [KeepOldValue(e, x)])
    ensures Chained(s, pre + [x] + mid + [e]) ==> Chained(s, pre + mid + [KeepOldValue(e, x)])
  {
    var run, merged := [x] + mid + [e], mid + [KeepOldValue(e, x)];
    assert pre + [x] + mid + [e] == pre + run && pre + mid + [KeepOldValue(e, x)] == pre + merged;
    AnchoredConcat(s, pre, run);
    AnchoredConcat(s, pre, merged);
    ApplyConcat(s, pre, run);
    ApplyConcat(s, pre, merged);
    ChainedConcat(s, pre, run);
    ChainedConcat(s, pre, merged);
    AnchoredRun(Apply(s, pre), x, mid, e);
    ConflatedRun(Apply(s, pre), x, mid, e);
  }

  /** Both merged events are news to the client. */
  lemma {:induction false} UnseenMergeStraightens(s: Store, a: seq<Event>, x: Event, b: seq<Event>, unseen: seq<Event>,
                                                  e: Event)
    requires StraightensTo(s, a + [x] + b, unseen) && Anchors(Apply(s, unseen), e)
    requires x.kind.ParamChanged? && e.kind.ParamChanged? && x.kind.param == e.kind.param
    requires AvoidsParam(b, e.kind.param)
    ensures StraightensTo(s, a + b + [KeepOldValue(e, x)], unseen + [e])
  {
    var t :| IsStraightened(s, a + [x] + b, t, unseen);
    hide Straightens, Anchored, Apply, AvoidsParam, Anchors, KeepOldValue, ApplyEvent, Chained;
    var ta, tx, tb := TakenOutStraightens(a, x, b, t, e);
    SameEndStaysSame(s, t, unseen, e);
    MergeIsExact(s, ta, tx, tb, e);
    assert IsStraightened(s, a + b + [KeepOldValue(e, x)], ta + tb + [KeepOldValue(e, tx)], unseen + [e]);
  }

  /** One retained event, for a client at `c`. */
  lemma {:induction false} RetainStraightens(store: Store, ring: seq<Event>, unseen: seq<Event>, e: Event, c: Cursor,
                                             s: Store)
    requires Increasing(ring + [e]) && !Sees(c, e.time)
    requires StraightensTo(s, After(ring, c), unseen) && Anchors(Apply(s, unseen), e)
    ensures StraightensTo(s, After(Retain(store, ring, e), c), unseen + [e])
  {
    var p := CoalescableParam(store, e);
    if p.None? || PreviousIndex(store, ring, p.value) < 0 {
      AfterOne(e, c);
      AfterConcat(ring, [e], c);
      PlainStraightens(s, After(ring, c), unseen, e);
    } else {
      var i := PreviousIndex(store, ring, p.value);
      var pre, x, mid, merged := ring[..i], ring[i], ring[i + 1..], KeepOldValue(e, ring[i]);
      var r := After(ring, c);
      assert ring == pre + [x] + mid;
      assert Retain(store, ring, e) == pre + mid + [merged];
      MidAvoids(store, ring, p.value, c);
      if Sees(c, ring[i].time) {
        EarlierSeen(ring, e, i, c);
      }
      hide StraightensTo, AvoidsParam, Anchors, After, CoalescableParam, Retain, PreviousIndex;
      MergeStraightens(s, pre, x, mid, e, unseen, c);
    }
  }

  lemma {:induction false} MergeStraightens(s: Store, pre: seq<Event>, x: Event, mid: seq<Event>, e: Event,
                                            unseen: seq<Event>, c: Cursor)
    requires !Sees(c, e.time) && (Sees(c, x.time) ==> After(pre, c) == [])
    requires x.kind.ParamChanged? && e.kind.ParamChanged? && x.kind.param == e.kind.param
    requires AvoidsParam(After(mid, c), e.kind.param)
    requires StraightensTo(s, After(pre + [x] + mid, c), unseen) && Anchors(Apply(s, unseen), e)
    ensures StraightensTo(s, After(pre + mid + [KeepOldValue(e, x)], c), unseen + [e])
  {
    CutAtMerge(pre, x, mid, KeepOldValue(e, x), c);
    hide *;
    if Sees(c, x.time) {
      SeenMergeStraightens(s, After(mid, c), unseen, x, e);
    } else {
      UnseenMergeStraightens(s, After(pre, c), x, After(mid, c), unseen, e);
    }
  }

  lemma {:induction false} CutAtMerge(pre: seq<Event>, x: Event, mid: seq<Event>, merged: Event, c: Cursor)
    requires !Sees(c, merged.time) && (Sees(c, x.time) ==> After(pre, c) == [])
    ensures Sees(c, x.time) ==>
              After(pre + [x] + mid, c) == After(mid, c) && After(pre + mid + [merged], c) == After(mid, c) + [merged]
    ensures !Sees(c, x.time) ==>
              && After(pre + [x] + mid, c) == After(pre, c) + [x] + After(mid, c)
              && After(pre + mid + [merged], c) == After(pre, c) + After(mid, c) + [merged]
  {
    UnseenOfMerge(pre, x, mid, merged, c);
    AfterOne(x, c);
  }

  lemma {:induction false} EarlierSeen(ring: seq<Event>, e: Event, i: nat, c: Cursor)
    requires Increasing(ring + [e]) && i < |ring| && Sees(c, ring[i].time)
    ensures After(ring[..i], c) == []
  {
    forall y | y in ring[..i]
      ensures Sees(c, y.time)
    {
      var k :| 0 <= k < i && ring[k] == y;
      assert (ring + [e])[k].time.Before((ring + [e])[i].time);
    }
    AfterAllSeen(ring[..i], c);
  }

  // ---------------------------------------------------------------------
  // Exactness
  // ---------------------------------------------------------------------

  /** What a client can check before it applies a replay: of the values that change before anything else does, the first
      one about every parameter whose default is not shown starts from the value the client shows. */
  ghost predicate StartsWhereShown(s: Store, r: seq<Event>) {
    forall i | 0 <= i < |r| && r[i].kind.ParamChanged? && AvoidsParam(r[..i], r[i].kind.param) :: Anchors(s, r[i])
  }

  lemma {:induction false} TakeOneMore(s: Store, events: seq<Event>, i: nat)
    requires i < |events|
    ensures Apply(s, events[..i + 1]) == ApplyEvent(Apply(s, events[..i]), events[i])
    ensures Anchored(s, events[..i + 1]) <==> Anchored(s, events[..i]) && Anchors(Apply(s, events[..i]), events[i])
    ensures Anchored(s, events) ==> Anchors(Apply(s, events[..i]), events[i])
  {
    assert events[..i + 1] == events[..i] + [events[i]] && events == events[..i + 1] + events[i + 1..];
    SnocApply(s, events[..i], events[i]);
    AnchoredSnoc(s, events[..i], events[i]);
    AnchoredConcat(s, events[..i + 1], events[i + 1..]);
  }

  lemma {:induction false} StraightIsExact(s: Store, r: seq<Event>, t: seq<Event>, k: nat)
    requires Straightens(r, t) && Anchored(s, t) && StartsWhereShown(s, r) && k <= |r|
    ensures Apply(s, r[..k]) == Apply(s, t[..k]) && Anchored(s, r[..k])
    decreases k
  {
    if k > 0 {
      var i := k - 1;
      assert r[i] == t[i] || (Stale(r, t, i) && Anchors(s, r[i]));
      StraightIsExact(s, r, t, i);
      hide *;
      TakeOneMore(s, r, i);
      TakeOneMore(s, t, i);
      StepIsExact(s, r, t, i);
    }
  }

  lemma {:induction false} StepIsExact(s: Store, r: seq<Event>, t: seq<Event>, i: nat)
    requires i < |r| == |t| && (r[i] == t[i] || (Stale(r, t, i) && Anchors(s, r[i])))
    requires Apply(s, r[..i]) == Apply(s, t[..i]) && Anchors(Apply(s, t[..i]), t[i])
    ensures ApplyEvent(Apply(s, r[..i]), r[i]) == ApplyEvent(Apply(s, t[..i]), t[i]) && Anchors(Apply(s, r[..i]), r[i])
  {
    if r[i] != t[i] {
      StaleIsExact(s, r[..i], r[i], t[i]);
    }
  }

  /** A parameter's first change, started elsewhere: it does the same if both starts are right for the client. */
  lemma {:induction false} StaleIsExact(s: Store, before: seq<Event>, a: Event, b: Event)
    requires a.kind.ParamChanged? && b.kind.ParamChanged? && a == KeepOldValue(b, a)
    requires AvoidsParam(before, a.kind.param)
    requires Anchors(s, a) && Anchors(Apply(s, before), b)
    ensures ApplyEvent(Apply(s, before), a) == ApplyEvent(Apply(s, before), b) && Anchors(Apply(s, before), a)
  {
    AvoidingLeavesParam(s, before, a.kind.param);
  }

  // ---------------------------------------------------------------------
  // A wrong default stays wrong
  // ---------------------------------------------------------------------

  predicate IsFeedback(e: Event) {
    !e.kind.GraphTransaction?
  }

  function DefaultOf(d: ParamDto): ParamValue {
    Or(d.defaultValue, d.value)
  }

  /** The same value, but another default, whether it is shown or not. */
  ghost predicate Apart(s: Store, t: Store, p: NodeId) {
    && HoldsParam(s, p) && HoldsParam(t, p)
    && s[p].data.param.value == t[p].data.param.value
    && s[p].data.param.defaultValue != Some(s[p].data.param.value)
    && t[p].data.param.defaultValue != Some(t[p].data.param.value)
    && DefaultOf(s[p].data.param) != DefaultOf(t[p].data.param)
  }

  /** No operation inserts, removes or patches the parameter. */
  predicate LeavesAlone(e: Event, p: NodeId) {
    e.kind.GraphTransaction? ==> forall op | op in e.kind.ops :: !OpTouches(op, p)
  }

  lemma {:induction false} StaysApart(s: Store, t: Store, a: Event, b: Event, p: NodeId)
    requires Apart(s, t, p)
    requires (a == b && LeavesAlone(a, p)) || (a.kind.ParamChanged? && b.kind.ParamChanged?
                                               && a.kind.param == b.kind.param != p)
    requires Continues(t, b)
    ensures Apart(ApplyEvent(s, a), ApplyEvent(t, b), p)
  {
    if a.kind.GraphTransaction? {
      OpsLeaveData(s, a.kind.ops, p);
      OpsLeaveData(t, a.kind.ops, p);
    }
  }

  lemma {:induction false} ComesApart(s: Store, t: Store, a: Event, b: Event)
    requires a.kind.ParamChanged? && b.kind.ParamChanged? && a == KeepOldValue(b, a)
    requires var p := a.kind.param; HoldsParam(s, p) && HoldsParam(t, p) && s[p] == t[p]
    requires !Anchors(s, a) && Continues(t, b)
    ensures Apart(ApplyEvent(s, a), ApplyEvent(t, b), a.kind.param)
  {
  }

  /** Of the values that change before anything else does, the first one about a parameter,
      if its default is not shown and it starts from another value than the one shown. */
  ghost predicate BadStart(s: Store, r: seq<Event>, i: nat) {
    i < |r| && r[i].kind.ParamChanged? && AvoidsParam(r[..i], r[i].kind.param) && !Anchors(s, r[i])
  }

  /** Nothing later inserts, removes or patches the parameter of this event. */
  predicate LeftAlone(r: seq<Event>, i: nat)
    requires i < |r| && r[i].kind.ParamChanged?
  {
    forall k | i < k < |r| :: LeavesAlone(r[k], r[i].kind.param)
  }

  lemma {:induction false} ApartAtFirst(s: Store, r: seq<Event>, t: seq<Event>, i: nat)
    requires Straightens(r, t) && BadStart(s, r, i) && Continues(Apply(s, t[..i]), t[i])
    ensures Apart(ApplyEvent(Apply(s, r[..i]), r[i]), ApplyEvent(Apply(s, t[..i]), t[i]), r[i].kind.param)
  {
    var p := r[i].kind.param;
    assert r[i] == t[i] || Stale(r, t, i);
    StraightensPrefix(r, t, i);
    hide *;
    StraightensKinds(r[..i], t[..i], p);
    AvoidingLeavesParam(s, r[..i], p);
    AvoidingLeavesParam(s, t[..i], p);
    FirstComesApart(s, Apply(s, r[..i]), Apply(s, t[..i]), r[i], t[i]);
  }

  lemma {:induction false} FirstComesApart(s: Store, u: Store, v: Store, a: Event, b: Event)
    requires a.kind.ParamChanged? && b.kind.ParamChanged? && a == KeepOldValue(b, a)
    requires var p := a.kind.param;
             (p in s <==> p in u) && (p in s <==> p in v) && (p in s ==> u[p] == s[p] && v[p] == s[p])
    requires !Anchors(s, a) && Continues(v, b)
    ensures Apart(ApplyEvent(u, a), ApplyEvent(v, b), a.kind.param)
  {
    ComesApart(u, v, a, b);
  }

  lemma {:induction false} ApartToTheEnd(s: Store, r: seq<Event>, t: seq<Event>, i: nat, k: nat)
    requires i < k <= |r| == |t| && r[i].kind.ParamChanged?
    requires Straightens(r, t) && Chained(s, t) && BadStart(s, r, i) && LeftAlone(r, i)
    ensures Apart(Apply(s, r[..k]), Apply(s, t[..k]), r[i].kind.param)
    decreases k
  {
    hide *;
    var j := k - 1;
    ChainedAt(s, t, j);
    if j == i {
      ApartAtFirst(s, r, t, i);
    } else {
      LaterIsAlike(s, r, t, i, j);
      ApartToTheEnd(s, r, t, i, j);
      StaysApart(Apply(s, r[..j]), Apply(s, t[..j]), r[j], t[j], r[i].kind.param);
    }
    TakeOneMore(s, r, j);
    TakeOneMore(s, t, j);
  }

  lemma {:induction false} LaterIsAlike(s: Store, r: seq<Event>, t: seq<Event>, i: nat, j: nat)
    requires Straightens(r, t) && i < j < |r| && BadStart(s, r, i) && LeftAlone(r, i)
    ensures || (r[j] == t[j] && LeavesAlone(r[j], r[i].kind.param))
            || (r[j].kind.ParamChanged? && t[j].kind.ParamChanged?
                && r[j].kind.param == t[j].kind.param != r[i].kind.param)
  {
    assert r[..j][i] == r[i] && r[i] in r[..j];
    assert r[j] == t[j] || Stale(r, t, j);
  }

  lemma {:induction false} StraightensPrefix(r: seq<Event>, t: seq<Event>, k: nat)
    requires Straightens(r, t) && k <= |r|
    ensures Straightens(r[..k], t[..k])
  {
    forall i | 0 <= i < k
      ensures r[..k][i] == t[..k][i] || Stale(r[..k], t[..k], i)
    {
      assert r[i] == t[i] || Stale(r, t, i);
      assert r[..k][..i] == r[..i];
    }
  }

  /** What is retained does to a client what the unseen events would have done, defaults included, if it starts where
      the client is; in a chain of values only if every parameter that starts elsewhere is inserted, removed or
      patched later, and so, without graph transactions, only then. */
  lemma {:induction false} ExactIfStartsWhereShown(s: Store, r: seq<Event>, unseen: seq<Event>)
    requires StraightensTo(s, r, unseen)
    ensures StartsWhereShown(s, r) ==> Apply(s, r) == Apply(s, unseen) && Anchored(s, r)
    ensures Chained(s, unseen) && Apply(s, r) == Apply(s, unseen) ==> forall i | BadStart(s, r, i) :: !LeftAlone(r, i)
    ensures Chained(s, unseen) && (forall e | e in r :: IsFeedback(e)) && Apply(s, r) == Apply(s, unseen) ==>
              StartsWhereShown(s, r)
  {
    var t :| IsStraightened(s, r, t, unseen);
    assert r[..|r|] == r && t[..|t|] == t;
    if StartsWhereShown(s, r) {
      StraightIsExact(s, r, t, |r|);
    }
    if Chained(s, unseen) {
      forall i | BadStart(s, r, i) && LeftAlone(r, i)
        ensures Apply(s, r) != Apply(s, t)
      {
        ApartToTheEnd(s, r, t, i, |r|);
      }
      FeedbackLeavesAlone(s, r);
    }
  }

  lemma {:induction false} FeedbackLeavesAlone(s: Store, r: seq<Event>)
    ensures (forall e | e in r :: IsFeedback(e)) && (forall i | BadStart(s, r, i) :: !LeftAlone(r, i)) ==>
              StartsWhereShown(s, r)
  {
    if forall e | e in r :: IsFeedback(e) {
      forall i | 0 <= i < |r| && r[i].kind.ParamChanged? && AvoidsParam(r[..i], r[i].kind.param) && !Anchors(s, r[i])
        ensures BadStart(s, r, i) && LeftAlone(r, i)
      {
        assert forall k | i < k < |r| :: r[k] in r;
      }
    }
  }

  // ---------------------------------------------------------------------
  // Rings and logs
  // ---------------------------------------------------------------------

  /** For a client at `c`, what the ring retains is what the history would have told it, straightened. */
  ghost predicate ExactFor(ring: Ring, history: seq<Event>, c: Cursor, s: Store) {
    Reaches(ring, c) ==> StraightensTo(s, After(ring.events, c), After(history, c))
  }

  lemma {:induction false} AfterSnoc(events: seq<Event>, e: Event, c: Cursor)
    ensures After(events + [e], c) == if Sees(c, e.time) then After(events, c) else After(events, c) + [e]
  {
    AfterConcat(events, [e], c);
    AfterOne(e, c);
  }

  lemma {:induction false} NothingStraightens(s: Store)
    ensures StraightensTo(s, [], [])
  {
    assert IsStraightened(s, [], [], []);
  }

  lemma {:induction false} AppendExact(store: Store, ring: Ring, history: seq<Event>, e: Event, capacity: nat,
                                       c: Cursor, s: Store)
    requires RingOf(ring, history) && Increasing(history + [e]) && capacity >= 1
    requires ExactFor(ring, history, c, s) && Anchored(s, After(history + [e], c))
    ensures RingOf(AppendOne(store, ring, e, capacity), history + [e])
    ensures ExactFor(AppendOne(store, ring, e, capacity), history + [e], c, s)
  {
    AppendStays(store, ring, history, e, capacity);
    RetainIncreasing(store, ring.events, e);
    if Reaches(AppendOne(store, ring, e, capacity), c) {
      AppendReaches(store, ring, history, e, capacity, c);
      AfterSnoc(history, e, c);
      AnchoredSnoc(s, After(history, c), e);
      hide Retain, After, Evict, StraightensTo, Anchored, Anchors;
      if Sees(c, e.time) {
        SeenAppend(Retain(store, ring.events, e), history, e, c);
        NothingStraightens(s);
      } else {
        RetainStraightens(store, ring.events, After(history, c), e, c, s);
      }
    }
  }

  lemma {:induction false} AnchoredPrefix(s: Store, a: seq<Event>, b: seq<Event>, c: Cursor)
    requires Anchored(s, After(a + b, c))
    ensures Anchored(s, After(a, c))
  {
    AfterConcat(a, b, c);
    AnchoredConcat(s, After(a, c), After(b, c));
  }

  lemma {:induction false} BatchExact(store: Store, ring: Ring, history: seq<Event>, batch: seq<Event>, capacity: nat,
                                      c: Cursor, s: Store)
    requires RingOf(ring, history) && Increasing(history + batch) && capacity >= 1
    requires ExactFor(ring, history, c, s) && Anchored(s, After(history + batch, c))
    ensures RingOf(AppendAll(store, ring, batch, capacity), history + batch)
    ensures ExactFor(AppendAll(store, ring, batch, capacity), history + batch, c, s)
    decreases |batch|
  {
    if batch == [] {
      assert history + batch == history;
    } else {
      var front, e := batch[..|batch| - 1], batch[|batch| - 1];
      assert history + batch == (history + front) + [e];
      PrefixIncreasing(history + batch, |history + front|);
      assert (history + batch)[..|history + front|] == history + front;
      AnchoredPrefix(s, history + front, [e], c);
      BatchExact(store, ring, history, front, capacity, c, s);
      AppendExact(store, AppendAll(store, ring, front, capacity), history + front, e, capacity, c, s);
    }
  }

  lemma {:induction false} RunExact(base: Store, batches: seq<seq<Event>>, capacity: nat, c: Cursor, s: Store)
    requires Increasing(History(batches)) && capacity >= 1 && Anchored(s, After(History(batches), c))
    ensures var log := PublishAll(Log(base, EMPTY), batches, capacity);
            RingOf(log.ring, History(batches)) && ExactFor(log.ring, History(batches), c, s)
    decreases |batches|
  {
    if batches == [] {
      NothingStraightens(s);
    } else {
      var front, batch := batches[..|batches| - 1], batches[|batches| - 1];
      PrefixIncreasing(History(batches), |History(front)|);
      assert History(batches)[..|History(front)|] == History(front);
      AnchoredPrefix(s, History(front), batch, c);
      RunExact(base, front, capacity, c, s);
      var log := PublishAll(Log(base, EMPTY), front, capacity);
      BatchExact(log.store, log.ring, History(front), batch, capacity, c, s);
    }
  }

  lemma {:induction false} LogExact(judges: seq<Store>, events: seq<Event>, capacity: nat, c: Cursor, s: Store)
    requires |judges| == |events| && Increasing(events) && capacity >= 1 && Anchored(s, After(events, c))
    ensures RingOf(LogOf(judges, events, capacity), events)
    ensures ExactFor(LogOf(judges, events, capacity), events, c, s)
    decreases |events|
  {
    if events == [] {
      NothingStraightens(s);
    } else {
      var n := |events| - 1;
      assert events == events[..n] + [events[n]];
      PrefixIncreasing(events, n);
      AnchoredPrefix(s, events[..n], [events[n]], c);
      LogExact(judges[..n], events[..n], capacity, c, s);
      AppendExact(judges[n], LogOf(judges[..n], events[..n], capacity), events[..n], events[n], capacity, c, s);
    }
  }

  /** A replay is exact, remembered defaults included, if the client finds that it starts where the client is. Where
      values change in a chain, only if every parameter that starts elsewhere is inserted, removed or patched later in
      the replay; and so, without graph transactions, only then. */
  lemma {:induction false} ReplayIsExact(base: Store, batches: seq<seq<Event>>, capacity: nat, cursor: Cursor)
    requires Increasing(History(batches)) && capacity >= 1 && Anchored(base, History(batches))
    requires Reaches(PublishAll(Log(base, EMPTY), batches, capacity).ring, cursor)
    ensures var log := PublishAll(Log(base, EMPTY), batches, capacity);
            var client, replay := Apply(base, UpTo(History(batches), cursor)), After(log.ring.events, cursor);
            && (StartsWhereShown(client, replay) ==> Apply(client, replay) == log.store)
            && (Chained(base, History(batches)) && Apply(client, replay) == log.store ==>
                  forall i | BadStart(client, replay, i) :: !LeftAlone(replay, i))
            && (Chained(base, History(batches)) && (forall e | e in replay :: IsFeedback(e)) ==>
                  (Apply(client, replay) == log.store ==> StartsWhereShown(client, replay)))
  {
    var history := History(batches);
    var seen, unseen := UpTo(history, cursor), After(history, cursor);
    var client := Apply(base, seen);
    SeenThenUnseen(history, cursor);
    ApplyConcat(base, seen, unseen);
    AnchoredConcat(base, seen, unseen);
    ChainedConcat(base, seen, unseen);
    RunExact(base, batches, capacity, cursor, client);
    RunCovers(base, batches, capacity, cursor, client);
    ExactIfStartsWhereShown(client, After(PublishAll(Log(base, EMPTY), batches, capacity).ring.events, cursor), unseen);
  }

  // ---------------------------------------------------------------------
  // One merge, and examples
  // ---------------------------------------------------------------------

  /** An event merged with one the client has already seen: it means the same to the client exactly when the client
      remembers a default, or both events start from the same value. */
  lemma {:induction false} MergeAcrossCursor(s: Store, x: Event, e: Event)
    requires x.kind.ParamChanged? && e.kind.ParamChanged? && x.kind.param == e.kind.param
    requires HoldsParam(s, e.kind.param) && Continues(s, e)
    ensures ApplyEvent(s, KeepOldValue(e, x)) == ApplyEvent(s, e) <==>
            s[e.kind.param].data.param.defaultValue.Some? || x.kind.oldValue == e.kind.oldValue
  {
    var p := e.kind.param;
    var d := s[p].data.param;
    var merged := ChangeParam(d, x.kind.oldValue, e.kind.newValue);
    var plain := ChangeParam(d, e.kind.oldValue, e.kind.newValue);
    assert merged == plain <==> d.defaultValue.Some? || x.kind.oldValue == e.kind.oldValue;
    assert ApplyEvent(s, KeepOldValue(e, x))[p].data.param == merged && ApplyEvent(s, e)[p].data.param == plain;
  }

  function Knob(value: ParamValue, default: Option<ParamValue>): Store {
    map[1 := NodeDto(1, "", "", "int", NodeMeta("", "", true, true, None, "", [], ""),
                     Parameter(ParamDto(value, default, Coalesce, false, "", "")), [])]
  }

  const OPENING := Event(EngineTime(0, 0, 0), Custom("", None, ""))
  const BACK_TO_DEFAULT := Event(EngineTime(0, 0, 1), ParamChanged(1, Int(1), Int(5)))
  const AWAY_AGAIN := Event(EngineTime(0, 0, 2), ParamChanged(1, Int(5), Int(7)))
  const MERGED := Event(EngineTime(0, 0, 2), ParamChanged(1, Int(1), Int(7)))

  lemma {:induction false} ApplyTwo(s: Store, a: Event, b: Event)
    ensures Apply(s, [a, b]) == ApplyEvent(ApplyEvent(s, a), b)
  {
    assert [a, b] == [a] + [b] && [] + [a] == [a];
    SnocApply(s, [a], b);
    SnocApply(s, [], a);
  }

  lemma {:induction false} AppendLast(store: Store, ring: Ring, events: seq<Event>, e: Event, capacity: nat)
    ensures AppendAll(store, ring, events + [e], capacity)
            == AppendOne(store, AppendAll(store, ring, events, capacity), e, capacity)
  {
    assert (events + [e])[..|events|] == events;
  }

  lemma {:induction false} MergedInRing(base: Store, before: seq<Event>)
    requires base == Knob(Int(1), Some(Int(5))) && |before| <= 1
    ensures AppendOne(base, Ring(before + [BACK_TO_DEFAULT], None), AWAY_AGAIN, 8) == Ring(before + [MERGED], None)
  {
    var ring := before + [BACK_TO_DEFAULT];
    assert PreviousIndex(base, ring, 1) == |before|;
    assert RemoveAt(ring, |before|) == before;
  }

  lemma {:induction false} ExampleRing(base: Store)
    requires base == Knob(Int(1), Some(Int(5)))
    ensures AppendAll(base, EMPTY, [OPENING, BACK_TO_DEFAULT, AWAY_AGAIN], 8) == Ring([OPENING, MERGED], None)
  {
    FirstInRing(base);
    hide *;
    assert [] + [OPENING] == [OPENING] && [OPENING] + [BACK_TO_DEFAULT] == [OPENING, BACK_TO_DEFAULT];
    assert [OPENING, BACK_TO_DEFAULT] + [AWAY_AGAIN] == [OPENING, BACK_TO_DEFAULT, AWAY_AGAIN]
           && [OPENING] + [MERGED] == [OPENING, MERGED];
    AppendLast(base, EMPTY, [], OPENING, 8);
    AppendLast(base, EMPTY, [OPENING], BACK_TO_DEFAULT, 8);
    AppendLast(base, EMPTY, [OPENING, BACK_TO_DEFAULT], AWAY_AGAIN, 8);
    MergedInRing(base, [OPENING]);
  }

  lemma {:induction false} FirstInRing(base: Store)
    requires base == Knob(Int(1), Some(Int(5)))
    ensures AppendAll(base, EMPTY, [], 8) == EMPTY
    ensures AppendOne(base, EMPTY, OPENING, 8) == Ring([OPENING], None)
    ensures AppendOne(base, EMPTY, BACK_TO_DEFAULT, 8) == Ring([BACK_TO_DEFAULT], None)
    ensures AppendOne(base, Ring([OPENING], None), BACK_TO_DEFAULT, 8) == Ring([OPENING] + [BACK_TO_DEFAULT], None)
  {
    assert PreviousIndex(base, [], 1) == -1 && PreviousIndex(base, [OPENING], 1) == -1;
  }

  lemma {:induction false} ExampleSteps()
    ensures ApplyEvent(Knob(Int(1), Some(Int(5))), OPENING) == Knob(Int(1), Some(Int(5)))
    ensures ApplyEvent(Knob(Int(1), Some(Int(5))), BACK_TO_DEFAULT) == Knob(Int(5), None)
    ensures ApplyEvent(Knob(Int(5), None), AWAY_AGAIN) == Knob(Int(7), Some(Int(5)))
    ensures ApplyEvent(Knob(Int(5), None), MERGED) == Knob(Int(7), Some(Int(1)))
  {
  }

  lemma {:induction false} ExampleCut()
    ensures UpTo([OPENING, BACK_TO_DEFAULT, AWAY_AGAIN], Some(BACK_TO_DEFAULT.time)) == [OPENING, BACK_TO_DEFAULT]
    ensures After([OPENING, MERGED], Some(BACK_TO_DEFAULT.time)) == [MERGED]
  {
    var batch, c := [OPENING, BACK_TO_DEFAULT, AWAY_AGAIN], Some(BACK_TO_DEFAULT.time);
    assert batch[1..] == [BACK_TO_DEFAULT, AWAY_AGAIN] && batch[1..][1..] == [AWAY_AGAIN] && [AWAY_AGAIN][1..] == [];
    assert UpTo([AWAY_AGAIN], c) == [] && UpTo([BACK_TO_DEFAULT, AWAY_AGAIN], c) == [BACK_TO_DEFAULT];
    assert [OPENING, MERGED][1..] == [MERGED];
    AfterOne(MERGED, c);
  }

  lemma {:induction false} ExampleChain()
    ensures Chained(Knob(Int(1), Some(Int(5))), [OPENING, BACK_TO_DEFAULT, AWAY_AGAIN])
  {
    var base := Knob(Int(1), Some(Int(5)));
    ExampleSteps();
    ApplyTwo(base, OPENING, BACK_TO_DEFAULT);
    ChainOfTwo(base, OPENING, BACK_TO_DEFAULT);
    ChainedConcat(base, [OPENING, BACK_TO_DEFAULT], [AWAY_AGAIN]);
    assert [OPENING, BACK_TO_DEFAULT, AWAY_AGAIN] == [OPENING, BACK_TO_DEFAULT] + [AWAY_AGAIN];
  }

  /** A cursor inside a conflated span: the client has seen the parameter return to its default 5, so it remembers
      none, and the merged event makes it remember the start of the span instead. The server remembers 5. */
  lemma {:induction false} ReplayCanChangeADefault()
    ensures var base := Knob(Int(1), Some(Int(5)));
            var batch := [OPENING, BACK_TO_DEFAULT, AWAY_AGAIN];
            var cursor := Some(BACK_TO_DEFAULT.time);
            && Chained(base, batch)
            && Apply(base, batch) == Knob(Int(7), Some(Int(5)))
            && Apply(Apply(base, UpTo(batch, cursor)), After(AppendAll(base, EMPTY, batch, 8).events, cursor))
               == Knob(Int(7), Some(Int(1)))
            && !StartsWhereShown(Apply(base, UpTo(batch, cursor)),
                                 After(AppendAll(base, EMPTY, batch, 8).events, cursor))
  {
    var base, middle := Knob(Int(1), Some(Int(5))), Knob(Int(5), None);
    ExampleChain();
    ExampleSteps();
    ExampleRing(base);
    ExampleCut();
    ApplyTwo(base, OPENING, BACK_TO_DEFAULT);
    SnocApply(base, [OPENING, BACK_TO_DEFAULT], AWAY_AGAIN);
    assert [OPENING, BACK_TO_DEFAULT, AWAY_AGAIN] == [OPENING, BACK_TO_DEFAULT] + [AWAY_AGAIN];
    SnocApply(middle, [], MERGED);
    assert [] + [MERGED] == [MERGED];
    assert !Anchors(middle, MERGED) && AvoidsParam([MERGED][..0], 1);
  }

  /** The retention check can send back a client that has lost
      nothing: here conflation, not eviction, moved the front. */
  lemma {:induction false} ResyncCanBeNeedless()
    ensures var base := Knob(Int(1), Some(Int(5)));
            var log := PublishAll(Log(base, EMPTY), [[BACK_TO_DEFAULT, AWAY_AGAIN]], 8);
            && log.ring == Ring([MERGED], None)
            && BACK_TO_DEFAULT.time.Before(log.ring.events[0].time)
            && Reaches(log.ring, Some(BACK_TO_DEFAULT.time))
  {
    var base, batch := Knob(Int(1), Some(Int(5))), [BACK_TO_DEFAULT, AWAY_AGAIN];
    var none: seq<seq<Event>> := [];
    assert [batch][..0] == none && [] + [BACK_TO_DEFAULT] == [BACK_TO_DEFAULT]
           && [BACK_TO_DEFAULT] + [AWAY_AGAIN] == batch;
    FirstInRing(base);
    AppendLast(base, EMPTY, [], BACK_TO_DEFAULT, 8);
    AppendLast(base, EMPTY, [BACK_TO_DEFAULT], AWAY_AGAIN, 8);
    MergedInRing(base, []);
    assert [] + [MERGED] == [MERGED];
    assert PublishAll(Log(base, EMPTY), none, 8) == Log(base, EMPTY);
  }
}
