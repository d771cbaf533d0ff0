/** Whole runs: a live tree, the events that describe what happens to it, and the flat store that follows them. */
module TreeRuns {
  import opened UiTypes
  import opened StoreSemantics
  import opened OrderedTrees
  import opened TreeEditing

  /** One thing that happens to the live tree and reaches the UI as one event. */
  datatype Change =
    | TreeEdit(edit: Edit)
    | Feedback(kind: EventKind)

  predicate IsParamFeedback(kind: EventKind) {
    kind.ParamChanged? || kind.ParamControlChanged? || kind.ParamConstraintsChanged?
  }

  function FeedbackTarget(kind: EventKind): NodeId
    requires IsParamFeedback(kind)
  {
    if kind.ParamChanged? then kind.param
    else if kind.ParamControlChanged? then kind.controlled
    else kind.constrained
  }

  function Feed(d: ParamDto, kind: EventKind): ParamDto
    requires IsParamFeedback(kind)
  {
    if kind.ParamChanged? then ChangeParam(d, kind.oldValue, kind.newValue)
    else if kind.ParamControlChanged? then d.(control := kind.newControl)
    else d.(constraints := kind.newConstraints)
  }

  /** Graph transactions come from edits only; anything else may be announced at any time. */
  predicate Possible(t: Tree, c: Change) {
    match c
    case TreeEdit(e) => Allowed(t, e)
    case Feedback(kind) => !kind.GraphTransaction?
  }

  function Changed(t: Tree, c: Change): Tree
    requires Possible(t, c)
  {
    match c
    case TreeEdit(e) => Edited(t, e)
    case Feedback(kind) =>
      if IsParamFeedback(kind) && FeedbackTarget(kind) in Ids(t)
         && Find(t, FeedbackTarget(kind)).dto.data.Parameter?
      then
        var dto := Find(t, FeedbackTarget(kind)).dto;
        Rewrite(t, FeedbackTarget(kind), dto.(data := Parameter(Feed(dto.data.param, kind))))
      else t
  }

  function Published(t: Tree, c: Change, time: EngineTime, parents: NodeId -> Option<NodeId>): Event
    requires Possible(t, c)
  {
    match c
    case TreeEdit(e) => Event(time, GraphTransaction(0, Describe(t, e, parents)))
    case Feedback(kind) => Event(time, kind)
  }

  lemma {:induction false} ChangeCommutes(t: Tree, c: Change, time: EngineTime, parents: NodeId -> Option<NodeId>)
    requires WellFormed(t) && Possible(t, c)
    ensures WellFormed(Changed(t, c))
    ensures ApplyEvent(Flatten(t), Published(t, c, time, parents)) == Flatten(Changed(t, c))
  {
    match c {
      case TreeEdit(e) => EditCommutes(t, e, parents);
      case Feedback(kind) =>
        if IsParamFeedback(kind) && FeedbackTarget(kind) in Ids(t) {
          var p := FeedbackTarget(kind);
          var dto := Find(t, p).dto;
          FlattenAt(t, p);
          if dto.data.Parameter? {
            RewriteFlattens(t, p, dto.(data := Parameter(Feed(dto.data.param, kind))));
          }
        }
    }
  }

  /** `trees` is a run of the live tree and `events` what it published, one event per change. */
  ghost predicate IsRun(trees: seq<Tree>, changes: seq<Change>, events: seq<Event>, parents: NodeId -> Option<NodeId>) {
    && |trees| == |changes| + 1 == |events| + 1
    && WellFormed(trees[0])
    && forall i | 0 <= i < |changes| ::
         && Possible(trees[i], changes[i])
         && trees[i + 1] == Changed(trees[i], changes[i])
         && events[i] == Published(trees[i], changes[i], events[i].time, parents)
  }

  /** The flat store that applies a run's events is, after every prefix, the projection of the live tree. */
  lemma {:induction false} StoreFollowsTree(trees: seq<Tree>, changes: seq<Change>, events: seq<Event>,
                                            parents: NodeId -> Option<NodeId>, n: nat)
    requires IsRun(trees, changes, events, parents) && n <= |events|
    ensures WellFormed(trees[n])
    ensures Apply(Flatten(trees[0]), events[..n]) == Flatten(trees[n])
  {
    if n == 0 {
    } else {
      StoreFollowsTree(trees, changes, events, parents, n - 1);
      assert events[..n][..n - 1] == events[..n - 1];
      ChangeCommutes(trees[n - 1], changes[n - 1], events[n - 1].time, parents);
    }
  }

  // ---------------------------------------------------------------------
  // What a projection of a well-formed tree looks like
  // ---------------------------------------------------------------------

  /** Keys match ids, every listed child is present, and every node has at most one place in one child list. */
  ghost predicate ForestShaped(s: Store) {
    && (forall k | k in s :: s[k].nodeId == k)
    && (forall k, c | k in s && c in s[k].children :: c in s)
    && (forall k, j, c | k in s && j in s && c in s[k].children && c in s[j].children :: k == j)
    && (forall k, i, j | k in s && 0 <= i < j < |s[k].children| :: s[k].children[i] != s[k].children[j])
  }

  /** Children of a tree are its descendants, and none of them is its root. */
  ghost predicate ChildrenInside(s: Store, inside: set<NodeId>) {
    forall k, c | k in s && c in s[k].children :: c in inside
  }

  lemma {:induction false} RootsAreIds(forest: seq<Tree>)
    ensures forall id | id in RootIds(forest) :: id in ForestIds(forest)
  {
    if forest == [] {
    } else {
      RootsAreIds(forest[1..]);
      forall id | id in RootIds(forest)
        ensures id in ForestIds(forest)
      {
        var i :| 0 <= i < |forest| && forest[i].Id() == id;
        if i > 0 {
          assert RootIds(forest[1..])[i - 1] == id;
        }
      }
    }
  }

  lemma {:induction false} RootsDistinct(forest: seq<Tree>)
    requires WellFormedForest(forest)
    ensures forall i, j | 0 <= i < j < |forest| :: forest[i].Id() != forest[j].Id()
  {
    if forest == [] {
    } else {
      RootsDistinct(forest[1..]);
      RootsAreIds(forest[1..]);
      forall i, j | 0 <= i < j < |forest|
        ensures forest[i].Id() != forest[j].Id()
      {
        assert RootIds(forest[1..])[j - 1] == forest[j].Id();
        if i > 0 {
          assert forest[1..][i - 1] == forest[i] && forest[1..][j - 1] == forest[j];
        }
      }
    }
  }

  lemma {:induction false} TreeIsForestShaped(t: Tree)
    requires WellFormed(t)
    ensures ForestShaped(Flatten(t))
    ensures ChildrenInside(Flatten(t), ForestIds(t.kids))
    decreases t, 0
  {
    ForestIsForestShaped(t.kids);
    RootsAreIds(t.kids);
    RootsDistinct(t.kids);
  }

  /** Two stores with different nodes, in one. */
  ghost predicate SideBySide(a: Store, b: Store, s: Store) {
    && a.Keys !! b.Keys
    && s.Keys == a.Keys + b.Keys
    && (forall k | k in a :: s[k] == a[k])
    && (forall k | k in b :: s[k] == b[k])
  }

  lemma {:induction false} ChildStaysOnItsSide(a: Store, b: Store, s: Store, k: NodeId, c: NodeId)
    requires ForestShaped(a) && ForestShaped(b) && SideBySide(a, b, s) && k in s && c in s[k].children
    ensures c in s && if k in a then c in a && c !in b && c in a[k].children
                      else k in b && c in b && c !in a && c in b[k].children
  {
  }

  lemma {:induction false} ShapesSideBySide(a: Store, b: Store, s: Store)
    requires ForestShaped(a) && ForestShaped(b) && SideBySide(a, b, s)
    ensures ForestShaped(s)
    ensures ChildrenInside(s, s.Keys)
  {
    forall k, c | k in s && c in s[k].children
      ensures c in s
    {
      ChildStaysOnItsSide(a, b, s, k, c);
    }
    forall k, j, c | k in s && j in s && c in s[k].children && c in s[j].children
      ensures k == j
    {
      ChildStaysOnItsSide(a, b, s, k, c);
      ChildStaysOnItsSide(a, b, s, j, c);
    }
  }

  lemma {:induction false} ForestIsForestShaped(forest: seq<Tree>)
    requires WellFormedForest(forest)
    ensures ForestShaped(FlattenForest(forest))
    ensures ChildrenInside(FlattenForest(forest), ForestIds(forest))
    ensures forall k, c | k in FlattenForest(forest) && c in FlattenForest(forest)[k].children :: c !in RootIds(forest)
    decreases forest, 0
  {
    if forest == [] {
    } else {
      var head, rest := forest[0], forest[1..];
      TreeIsForestShaped(head);
      ForestIsForestShaped(rest);
      ShapesSideBySide(Flatten(head), FlattenForest(rest), FlattenForest(forest));
      assert forest == [head] + rest;
      NoRootIsAChild(head, rest);
    }
  }

  lemma {:induction false} NoRootIsAChild(head: Tree, rest: seq<Tree>)
    requires WellFormedForest([head] + rest)
    requires ChildrenInside(Flatten(head), ForestIds(head.kids))
    requires ChildrenInside(FlattenForest(rest), ForestIds(rest))
    requires forall k, c | k in FlattenForest(rest) && c in FlattenForest(rest)[k].children :: c !in RootIds(rest)
    ensures var forest := [head] + rest;
            forall k, c | k in FlattenForest(forest) && c in FlattenForest(forest)[k].children :: c !in RootIds(forest)
  {
    var forest := [head] + rest;
    ForestCons(head, rest);
    RootsAreIds(rest);
    forall k, c | k in FlattenForest(forest) && c in FlattenForest(forest)[k].children
      ensures c !in RootIds(forest)
    {
      if k in Flatten(head) {
        assert c in Ids(head) && c != head.Id();
      } else {
        assert c in ForestIds(rest);
      }
    }
  }

  /** Every reachable store is forest-shaped. */
  lemma {:induction false} ReachableStoresAreForests(trees: seq<Tree>, changes: seq<Change>, events: seq<Event>,
                                  parents: NodeId -> Option<NodeId>, n: nat)
    requires IsRun(trees, changes, events, parents) && n <= |events|
    ensures ForestShaped(Apply(Flatten(trees[0]), events[..n]))
  {
    StoreFollowsTree(trees, changes, events, parents, n);
    TreeIsForestShaped(trees[n]);
  }
}
