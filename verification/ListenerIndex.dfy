/** The two-way index between subscribers and the nodes they listen to. */
module ListenerIndex {
  import opened UiTypes

  datatype EventSubscription = EventSubscription(node: NodeId, maxDepth: u32)

  datatype Listener = Listener(id: NodeId, maxDepth: u32)

  /** `subscriber` listens to `origin`, down to a depth. */
  datatype Triple = Triple(subscriber: NodeId, origin: NodeId, maxDepth: u32)

  // ---------------------------------------------------------------------
  // Lists without repetition
  // ---------------------------------------------------------------------

  ghost predicate NoRepeats<T>(list: seq<T>) {
    forall i, j | 0 <= i < j < |list| :: list[i] != list[j]
  }

  function Position<T(==)>(list: seq<T>, x: T): (r: Option<nat>)
    ensures r.Some? <==> x in list
    ensures r.Some? ==> r.value < |list| && list[r.value] == x && x !in list[..r.value]
  {
    if list == [] then None
    else if list[0] == x then Some(0)
    else match Position(list[1..], x) case Some(i) => Some(i + 1) case None => None
  }

  /** Removes by moving the last element into the gap. */
  function SwapRemove<T>(list: seq<T>, at: nat): (r: seq<T>)
    requires at < |list|
    ensures |r| == |list| - 1
  {
    var last := |list| - 1;
    if at == last then list[..last] else list[..last][at := list[last]]
  }

  lemma {:induction false} SwapRemoveRemoves<T>(list: seq<T>, at: nat)
    requires at < |list| && NoRepeats(list)
    ensures NoRepeats(SwapRemove(list, at))
    ensures forall x :: x in SwapRemove(list, at) <==> x in list && x != list[at]
  {
  }

  function Retained<T(!new)>(list: seq<T>, keep: T -> bool): (r: seq<T>)
    ensures forall x :: x in r <==> x in list && keep(x)
  {
    if list == [] then []
    else (if keep(list[0]) then [list[0]] else []) + Retained(list[1..], keep)
  }

  lemma {:induction false} RetainedNoRepeats<T(!new)>(list: seq<T>, keep: T -> bool)
    requires NoRepeats(list)
    ensures NoRepeats(Retained(list, keep))
    decreases |list|
  {
    if list != [] {
      RetainedNoRepeats(list[1..], keep);
    }
  }

  // ---------------------------------------------------------------------
  // Maps of lists
  // ---------------------------------------------------------------------

  predicate Listed<K, V(==)>(m: map<K, seq<V>>, k: K, v: V) {
    k in m && v in m[k]
  }

  /** No repetition and no empty list. */
  ghost predicate Tidy<K, V>(m: map<K, seq<V>>) {
    forall k | k in m :: m[k] != [] && NoRepeats(m[k])
  }

  function Pushed<K, V>(m: map<K, seq<V>>, k: K, v: V): map<K, seq<V>> {
    m[k := (if k in m then m[k] else []) + [v]]
  }

  function WithoutEmpty<K, V(==)>(m: map<K, seq<V>>, k: K, list: seq<V>): map<K, seq<V>> {
    if list == [] then m - {k} else m[k := list]
  }

  lemma {:induction false} WithoutEmptyReplaces<K, V>(m: map<K, seq<V>>, k: K, list: seq<V>)
    requires Tidy(m) && NoRepeats(list)
    ensures Tidy(WithoutEmpty(m, k, list))
    ensures forall a, b :: Listed(WithoutEmpty(m, k, list), a, b) <==> if a == k then b in list else Listed(m, a, b)
  {
  }

  // ---------------------------------------------------------------------
  // The index
  // ---------------------------------------------------------------------

  class ListenerIndex {
    var bySubscriber: map<NodeId, seq<EventSubscription>>
    var byOrigin: map<NodeId, seq<Listener>>
    /** What the two maps represent. */
    ghost var triples: set<Triple>

    /** Both maps list exactly the triples: each is the transpose of the other. */
    ghost predicate Valid()
      reads this
    {
      && Tidy(bySubscriber)
      && Tidy(byOrigin)
      && (forall s, o, d :: Listed(bySubscriber, s, EventSubscription(o, d)) <==> Triple(s, o, d) in triples)
      && (forall s, o, d :: Listed(byOrigin, o, Listener(s, d)) <==> Triple(s, o, d) in triples)
    }

    constructor ()
      ensures Valid() && triples == {}
    {
      bySubscriber, byOrigin, triples := map[], map[], {};
    }

    method IsEmpty() returns (empty: bool)
      requires Valid()
      ensures empty <==> triples == {}
    {
      forall t | t in triples
        ensures t.subscriber in bySubscriber
      {
        assert t == Triple(t.subscriber, t.origin, t.maxDepth);
        assert Listed(bySubscriber, t.subscriber, EventSubscription(t.origin, t.maxDepth));
      }
      empty := bySubscriber == map[];
      if !empty {
        var s :| s in bySubscriber;
        var first := bySubscriber[s][0];
        assert Listed(bySubscriber, s, EventSubscription(first.node, first.maxDepth));
      }
    }

    method Clear()
      modifies this
      ensures Valid() && triples == {}
    {
      bySubscriber, byOrigin, triples := map[], map[], {};
    }

    method Add(subscriber: NodeId, subscription: EventSubscription)
      requires Valid()
      modifies this
      ensures Valid() && triples == old(triples) + {Triple(subscriber, subscription.node, subscription.maxDepth)}
    {
      if Listed(bySubscriber, subscriber, subscription) {
        return;
      }
      var listener := Listener(subscriber, subscription.maxDepth);
      bySubscriber := Pushed(bySubscriber, subscriber, subscription);
      byOrigin := Pushed(byOrigin, subscription.node, listener);
      triples := triples + {Triple(subscriber, subscription.node, subscription.maxDepth)};
    }

    method Remove(subscriber: NodeId, subscription: EventSubscription)
      requires Valid()
      modifies this
      ensures Valid() && triples == old(triples) - {Triple(subscriber, subscription.node, subscription.maxDepth)}
    {
      var listener := Listener(subscriber, subscription.maxDepth);
      bySubscriber := RemoveFrom(bySubscriber, subscriber, subscription);
      byOrigin := RemoveFrom(byOrigin, subscription.node, listener);
      triples := triples - {Triple(subscriber, subscription.node, subscription.maxDepth)};
    }

    /** Forgets a node, as a subscriber and as an origin. */
    method PurgeForNode(node: NodeId)
      requires Valid()
      modifies this
      ensures Valid() && triples == set t | t in old(triples) && t.subscriber != node && t.origin != node
    {
      hide Tidy, NoRepeats;
      if node in bySubscriber {
        var subs := bySubscriber[node];
        WithoutEmptyReplaces(bySubscriber, node, []);
        bySubscriber := bySubscriber - {node};
        byOrigin := ForgetListener(byOrigin, subs, node);
      }
      ghost var listening := set t | t in triples && t.subscriber != node;
      assert forall s, o, d :: Listed(bySubscriber, s, EventSubscription(o, d)) <==> Triple(s, o, d) in listening;
      assert forall s, o, d :: Listed(byOrigin, o, Listener(s, d)) <==> Triple(s, o, d) in listening;
      if node in byOrigin {
        var listeners := byOrigin[node];
        WithoutEmptyReplaces(byOrigin, node, []);
        byOrigin := byOrigin - {node};
        bySubscriber := ForgetOrigin(bySubscriber, listeners, node);
      }
      triples := set t | t in triples && t.subscriber != node && t.origin != node;
    }

    /** Every listener of an origin, once. */
    method ListenersForOrigin(origin: NodeId) returns (listeners: seq<Listener>)
      requires Valid()
      ensures NoRepeats(listeners)
      ensures forall s, d :: Listener(s, d) in listeners <==> Triple(s, origin, d) in triples
    {
      listeners := if origin in byOrigin then byOrigin[origin] else [];
      assert forall s, d :: Listener(s, d) in listeners <==> Listed(byOrigin, origin, Listener(s, d));
    }
  }

  method RemoveFrom<K(==), V(==)>(m: map<K, seq<V>>, k: K, v: V) returns (r: map<K, seq<V>>)
    requires Tidy(m)
    ensures Tidy(r)
    ensures forall a, b :: Listed(r, a, b) <==> Listed(m, a, b) && !(a == k && b == v)
  {
    r := m;
    if k in m {
      var list := m[k];
      var at := Position(list, v);
      if at.Some? {
        SwapRemoveRemoves(list, at.value);
        list := SwapRemove(list, at.value);
      }
      WithoutEmptyReplaces(m, k, list);
      r := WithoutEmpty(m, k, list);
    }
  }

  /** Takes `node` out of the lists of everything it subscribed to, whatever the depth. */
  method ForgetListener(m: map<NodeId, seq<Listener>>, subs: seq<EventSubscription>, node: NodeId)
    returns (r: map<NodeId, seq<Listener>>)
    requires Tidy(m)
    ensures Tidy(r)
    ensures forall o, s, d :: Listed(r, o, Listener(s, d)) <==>
              Listed(m, o, Listener(s, d)) && !(s == node && exists sub :: sub in subs && sub.node == o)
  {
    r := m;
    for i := 0 to |subs|
      invariant Tidy(r)
      invariant forall o, s, d :: Listed(r, o, Listener(s, d)) <==>
                  Listed(m, o, Listener(s, d)) && !(s == node && exists sub :: sub in subs[..i] && sub.node == o)
    {
      var origin := subs[i].node;
      assert subs[..i + 1] == subs[..i] + [subs[i]];
      if origin in r {
        var kept := Retained(r[origin], (listener: Listener) => listener.id != node);
        RetainedNoRepeats(r[origin], (listener: Listener) => listener.id != node);
        WithoutEmptyReplaces(r, origin, kept);
        r := WithoutEmpty(r, origin, kept);
      }
    }
    assert subs[..|subs|] == subs;
  }

  /** Takes the origin `node` out of the lists of everyone who listened to it. */
  method ForgetOrigin(m: map<NodeId, seq<EventSubscription>>, listeners: seq<Listener>, node: NodeId)
    returns (r: map<NodeId, seq<EventSubscription>>)
    requires Tidy(m)
    ensures Tidy(r)
    ensures forall s, o, d :: Listed(r, s, EventSubscription(o, d)) <==>
              Listed(m, s, EventSubscription(o, d))
              && !(o == node && exists listener :: listener in listeners && listener.id == s)
  {
    r := m;
    for i := 0 to |listeners|
      invariant Tidy(r)
      invariant forall s, o, d :: Listed(r, s, EventSubscription(o, d)) <==>
                  Listed(m, s, EventSubscription(o, d))
                  && !(o == node && exists listener :: listener in listeners[..i] && listener.id == s)
    {
      var subscriber := listeners[i].id;
      assert listeners[..i + 1] == listeners[..i] + [listeners[i]];
      if subscriber in r {
        var kept := Retained(r[subscriber], (sub: EventSubscription) => sub.node != node);
        RetainedNoRepeats(r[subscriber], (sub: EventSubscription) => sub.node != node);
        WithoutEmptyReplaces(r, subscriber, kept);
        r := WithoutEmpty(r, subscriber, kept);
      }
    }
    assert listeners[..|listeners|] == listeners;
  }

  // ---------------------------------------------------------------------
  // Who receives an event
  // ---------------------------------------------------------------------

  /** `s` listens to one of the origins, down to where the event happened. */
  ghost predicate Reached(triples: set<Triple>, depths: map<NodeId, u32>, origins: set<NodeId>, s: NodeId) {
    exists t ::
      t in triples && t.subscriber == s && t.origin in origins && t.origin in depths && depths[t.origin] <= t.maxDepth
  }

  /** One of the first `count` listeners is `s`, listening deep enough. */
  ghost predicate Heard(listeners: seq<Listener>, count: nat, depth: u32, s: NodeId)
    requires count <= |listeners|
  {
    exists listener :: listener in listeners[..count] && listener.id == s && depth <= listener.maxDepth
  }

  /** The recipients added so far are those of `wanted` that take the event and were not there before. */
  ghost predicate Collected(added: seq<NodeId>, before: set<NodeId>, takes: NodeId -> bool, wanted: iset<NodeId>) {
    NoRepeats(added) && forall s :: s in added <==> s !in before && takes(s) && s in wanted
  }

  lemma {:induction false} HeardOneMore(listeners: seq<Listener>, count: nat, depth: u32, s: NodeId)
    requires count < |listeners|
    ensures Heard(listeners, count + 1, depth, s) <==>
            Heard(listeners, count, depth, s) || (listeners[count].id == s && depth <= listeners[count].maxDepth)
  {
    assert listeners[..count + 1] == listeners[..count] + [listeners[count]];
  }

  /** Looking up only the ancestors of an event finds the recipients that a scan of all subscriptions would: each
      subscriber that takes the event and listens to some ancestor deeply enough, once, and none that was a recipient
      already. */
  method CollectSubscriptionRecipients(index: ListenerIndex, depths: map<NodeId, u32>, takes: NodeId -> bool,
                                       recipients: seq<NodeId>, dedupe: set<NodeId>)
    returns (all: seq<NodeId>, seen: set<NodeId>)
    requires index.Valid()
    ensures |all| >= |recipients| && all[..|recipients|] == recipients
    ensures NoRepeats(all[|recipients|..])
    ensures forall s :: s in all[|recipients|..] <==>
              && s !in dedupe && takes(s)
              && exists t ::
                   t in index.triples && t.subscriber == s && t.origin in depths && depths[t.origin] <= t.maxDepth
    ensures seen == dedupe + set s | s in all[|recipients|..]
  {
    var added: seq<NodeId> := [];
    seen := dedupe;
    var empty := index.IsEmpty();
    if empty {
      all := recipients;
      return;
    }
    var pending := depths.Keys;
    ghost var done: set<NodeId> := {};
    while pending != {}
      invariant done + pending == depths.Keys
      invariant Collected(added, dedupe, takes, iset s | Reached(index.triples, depths, done, s))
      invariant seen == dedupe + set s | s in added
    {
      var origin :| origin in pending;
      pending := pending - {origin};
      var listeners := index.ListenersForOrigin(origin);
      var depth := depths[origin];
      for i := 0 to |listeners|
        invariant Collected(added, dedupe, takes,
                            iset s | Reached(index.triples, depths, done, s) || Heard(listeners, i, depth, s))
        invariant seen == dedupe + set s | s in added
      {
        forall s
          ensures Heard(listeners, i + 1, depth, s) <==>
                  Heard(listeners, i, depth, s) || (listeners[i].id == s && depth <= listeners[i].maxDepth)
        {
          HeardOneMore(listeners, i, depth, s);
        }
        var subscriber := listeners[i].id;
        if depth <= listeners[i].maxDepth && subscriber !in seen && takes(subscriber) {
          added, seen := added + [subscriber], seen + {subscriber};
        }
      }
      forall s
        ensures Reached(index.triples, depths, done + {origin}, s) <==>
                Reached(index.triples, depths, done, s) || Heard(listeners, |listeners|, depth, s)
      {
      }
      done := done + {origin};
    }
    all := recipients + added;
    assert done == depths.Keys && all[|recipients|..] == added;
  }
}
