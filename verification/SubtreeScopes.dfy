/** Subtree scopes: the top-down listing of a snapshot and the bottom-up membership test agree. */
module SubtreeScopes {
  import opened UiTypes
  import opened OrderedTrees

  /** The first snapshot node with this id. */
  function NodeAt(nodes: seq<NodeDto>, id: NodeId): (r: Option<NodeDto>)
    ensures r.Some? ==> r.value in nodes && r.value.nodeId == id
    ensures r.None? ==> forall n :: n in nodes ==> n.nodeId != id
  {
    if nodes == [] then None
    else if nodes[0].nodeId == id then Some(nodes[0])
    else NodeAt(nodes[1..], id)
  }

  /** The first snapshot node that lists `child`. */
  function ParentOf(nodes: seq<NodeDto>, child: NodeId): (r: Option<NodeId>)
    ensures r.Some? ==> exists n :: n in nodes && n.nodeId == r.value && child in n.children
    ensures r.None? ==> forall n :: n in nodes ==> child !in n.children
  {
    if nodes == [] then None
    else if child in nodes[0].children then Some(nodes[0].nodeId)
    else ParentOf(nodes[1..], child)
  }

  /** Where several nodes have the id, or list the child, the first one is found. */
  lemma {:induction false} FirstIsFound(nodes: seq<NodeDto>, id: NodeId, i: nat)
    requires i < |nodes|
    ensures nodes[i].nodeId == id && (forall j | 0 <= j < i :: nodes[j].nodeId != id) ==>
              NodeAt(nodes, id) == Some(nodes[i])
    ensures id in nodes[i].children && (forall j | 0 <= j < i :: id !in nodes[j].children) ==>
              ParentOf(nodes, id) == Some(nodes[i].nodeId)
    decreases i
  {
    if i > 0 {
      var rest := nodes[1..];
      assert forall j | 1 <= j < i :: nodes[j] == rest[j - 1];
      assert forall j | 0 <= j < i - 1 :: rest[j] == nodes[j + 1];
      FirstIsFound(rest, id, i - 1);
    }
  }

  // ---------------------------------------------------------------------
  // Bottom-up
  // ---------------------------------------------------------------------

  function Ancestor(nodes: seq<NodeDto>, node: NodeId, steps: nat): Option<NodeId> {
    if steps == 0 then Some(node) else
    match Ancestor(nodes, node, steps - 1)
    case None => None
    case Some(below) => ParentOf(nodes, below)
  }

  /** `root` is reached from `node` in at most `maxDepth` parent steps. */
  ghost predicate WithinSubtree(nodes: seq<NodeDto>, node: NodeId, root: NodeId, maxDepth: nat) {
    exists steps: nat :: steps <= maxDepth && Ancestor(nodes, node, steps) == Some(root)
  }

  /** The same test as a climb. */
  predicate Climbs(nodes: seq<NodeDto>, node: NodeId, root: NodeId, budget: nat)
    decreases budget
  {
    node == root || (budget > 0 && match ParentOf(nodes, node)
                                   case None => false
                                   case Some(parent) => Climbs(nodes, parent, root, budget - 1))
  }

  lemma {:induction false} AncestorAfterOne(nodes: seq<NodeDto>, node: NodeId, steps: nat)
    ensures Ancestor(nodes, node, steps + 1)
            == match ParentOf(nodes, node) case None => None case Some(parent) => Ancestor(nodes, parent, steps)
  {
    if steps == 0 {
      assert Ancestor(nodes, node, 0) == Some(node);
      assert Ancestor(nodes, node, 1) == ParentOf(nodes, node);
    } else {
      AncestorAfterOne(nodes, node, steps - 1);
      assert Ancestor(nodes, node, steps + 1) ==
             match Ancestor(nodes, node, steps) case None => None case Some(below) => ParentOf(nodes, below);
    }
  }

  /** Climbing reaches exactly the ancestors within the budget. */
  lemma {:induction false} ClimbsReachesAncestors(nodes: seq<NodeDto>, node: NodeId, root: NodeId, budget: nat)
    ensures Climbs(nodes, node, root, budget) <==> WithinSubtree(nodes, node, root, budget)
    decreases budget
  {
    assert Ancestor(nodes, node, 0) == Some(node);
    var parent := ParentOf(nodes, node);
    if budget > 0 && parent.Some? {
      ClimbsReachesAncestors(nodes, parent.value, root, budget - 1);
      if steps: nat :| steps <= budget - 1 && Ancestor(nodes, parent.value, steps) == Some(root) {
        AncestorAfterOne(nodes, node, steps);
        assert Ancestor(nodes, node, steps + 1) == Some(root);
      }
    }
    if steps: nat :| steps <= budget && Ancestor(nodes, node, steps) == Some(root) {
      if steps > 0 {
        AncestorAfterOne(nodes, node, steps - 1);
      }
    }
  }

  method SnapshotNodeWithinSubtree(nodes: seq<NodeDto>, node: NodeId, root: NodeId, maxDepth: u32)
    returns (within: bool)
    ensures within == Climbs(nodes, node, root, maxDepth)
  {
    if node == root {
      return true;
    }
    var depth: u32 := 0;
    var current := node;
    while depth < maxDepth
      invariant depth <= maxDepth && current != root
      invariant Climbs(nodes, node, root, maxDepth) == Climbs(nodes, current, root, maxDepth - depth)
    {
      var parent := ParentOf(nodes, current);
      if parent.None? {
        return false;
      }
      if parent.value == root {
        return true;
      }
      current := parent.value;
      depth := SaturatingNext(depth);
    }
    return false;
  }

  // ---------------------------------------------------------------------
  // Top-down
  // ---------------------------------------------------------------------

  /** The part of the subtree of `id` that lies at most `budget` levels down, parents before children. */
  function DepthFirst(nodes: seq<NodeDto>, id: NodeId, budget: nat): seq<NodeDto>
    decreases budget, 0
  {
    match NodeAt(nodes, id)
    case None => []
    case Some(node) => [node] + if budget == 0 then [] else DepthFirstAll(nodes, node.children, budget - 1)
  }

  function DepthFirstAll(nodes: seq<NodeDto>, ids: seq<NodeId>, budget: nat): seq<NodeDto>
    decreases budget, 1, |ids|
  {
    if ids == [] then [] else DepthFirst(nodes, ids[0], budget) + DepthFirstAll(nodes, ids[1..], budget)
  }

  /** How many stack entries the traversal of `id` takes. */
  ghost function Visits(nodes: seq<NodeDto>, id: NodeId, budget: nat): nat
    decreases budget, 0
  {
    match NodeAt(nodes, id)
    case None => 1
    case Some(node) => 1 + if budget == 0 then 0 else VisitsAll(nodes, node.children, budget - 1)
  }

  ghost function VisitsAll(nodes: seq<NodeDto>, ids: seq<NodeId>, budget: nat): nat
    decreases budget, 1, |ids|
  {
    if ids == [] then 0 else Visits(nodes, ids[0], budget) + VisitsAll(nodes, ids[1..], budget)
  }

  ghost predicate StackFits(stack: seq<(NodeId, u32)>, maxDepth: u32) {
    forall i | 0 <= i < |stack| :: stack[i].1 <= maxDepth
  }

  /** What is still to be listed when `stack` is popped from its end. */
  ghost function Pending(nodes: seq<NodeDto>, stack: seq<(NodeId, u32)>, maxDepth: u32): seq<NodeDto>
    requires StackFits(stack, maxDepth)
    decreases |stack|
  {
    if stack == [] then [] else
    var (id, depth) := stack[|stack| - 1];
    DepthFirst(nodes, id, maxDepth - depth) + Pending(nodes, stack[..|stack| - 1], maxDepth)
  }

  ghost function PendingVisits(nodes: seq<NodeDto>, stack: seq<(NodeId, u32)>, maxDepth: u32): nat
    requires StackFits(stack, maxDepth)
    decreases |stack|
  {
    if stack == [] then 0 else
    var (id, depth) := stack[|stack| - 1];
    Visits(nodes, id, maxDepth - depth) + PendingVisits(nodes, stack[..|stack| - 1], maxDepth)
  }

  lemma {:induction false} PendingPush(nodes: seq<NodeDto>, rest: seq<(NodeId, u32)>, id: NodeId, depth: u32,
                                       maxDepth: u32)
    requires StackFits(rest, maxDepth) && depth <= maxDepth
    ensures StackFits(rest + [(id, depth)], maxDepth)
    ensures Pending(nodes, rest + [(id, depth)], maxDepth)
            == DepthFirst(nodes, id, maxDepth - depth) + Pending(nodes, rest, maxDepth)
    ensures PendingVisits(nodes, rest + [(id, depth)], maxDepth)
            == Visits(nodes, id, maxDepth - depth) + PendingVisits(nodes, rest, maxDepth)
  {
  }

  /** Pushes children last to first, so that they are popped in order. */
  method PushChildren(nodes: seq<NodeDto>, rest: seq<(NodeId, u32)>, children: seq<NodeId>, depth: u32, maxDepth: u32)
    returns (stack: seq<(NodeId, u32)>)
    requires StackFits(rest, maxDepth) && depth <= maxDepth
    ensures StackFits(stack, maxDepth)
    ensures Pending(nodes, stack, maxDepth)
            == DepthFirstAll(nodes, children, maxDepth - depth) + Pending(nodes, rest, maxDepth)
    ensures PendingVisits(nodes, stack, maxDepth)
            == VisitsAll(nodes, children, maxDepth - depth) + PendingVisits(nodes, rest, maxDepth)
  {
    stack := rest;
    var i := |children|;
    while i > 0
      invariant 0 <= i <= |children|
      invariant StackFits(stack, maxDepth)
      invariant Pending(nodes, stack, maxDepth)
                == DepthFirstAll(nodes, children[i..], maxDepth - depth) + Pending(nodes, rest, maxDepth)
      invariant PendingVisits(nodes, stack, maxDepth)
                == VisitsAll(nodes, children[i..], maxDepth - depth) + PendingVisits(nodes, rest, maxDepth)
    {
      hide DepthFirst, Pending, PendingVisits, Visits, NodeAt;
      i := i - 1;
      PendingPush(nodes, stack, children[i], depth, maxDepth);
      assert children[i..][1..] == children[i + 1..];
      stack := stack + [(children[i], depth)];
    }
    assert children[0..] == children;
  }

  /** `before` is what `listed` and the entries of `stack` add up to. */
  ghost predicate AddsUp(nodes: seq<NodeDto>, all: seq<NodeDto>, listed: seq<NodeDto>, stack: seq<(NodeId, u32)>,
                         maxDepth: u32) {
    StackFits(stack, maxDepth) && listed + Pending(nodes, stack, maxDepth) == all
  }

  /** Popping a missing node, or one at the depth limit. */
  lemma {:induction false} PoppedLeaf(nodes: seq<NodeDto>, all: seq<NodeDto>, listed: seq<NodeDto>,
                                      rest: seq<(NodeId, u32)>, id: NodeId, depth: u32, maxDepth: u32)
    requires depth <= maxDepth && AddsUp(nodes, all, listed, rest + [(id, depth)], maxDepth)
    requires NodeAt(nodes, id).Some? ==> depth == maxDepth
    ensures AddsUp(nodes, all, listed + (if NodeAt(nodes, id).Some? then [NodeAt(nodes, id).value] else []), rest,
                   maxDepth)
    ensures PendingVisits(nodes, rest, maxDepth) < PendingVisits(nodes, rest + [(id, depth)], maxDepth)
  {
  }

  lemma {:induction false} PoppedInner(nodes: seq<NodeDto>, all: seq<NodeDto>, listed: seq<NodeDto>,
                                       rest: seq<(NodeId, u32)>, id: NodeId, depth: u32, maxDepth: u32,
                                       stack: seq<(NodeId, u32)>)
    requires depth < maxDepth && AddsUp(nodes, all, listed, rest + [(id, depth)], maxDepth)
    requires NodeAt(nodes, id).Some? && StackFits(rest, maxDepth) && StackFits(stack, maxDepth)
    requires Pending(nodes, stack, maxDepth)
             == DepthFirstAll(nodes, NodeAt(nodes, id).value.children, maxDepth - (depth + 1))
                + Pending(nodes, rest, maxDepth)
    requires PendingVisits(nodes, stack, maxDepth)
             == VisitsAll(nodes, NodeAt(nodes, id).value.children, maxDepth - (depth + 1))
                + PendingVisits(nodes, rest, maxDepth)
    ensures AddsUp(nodes, all, listed + [NodeAt(nodes, id).value], stack, maxDepth)
    ensures PendingVisits(nodes, stack, maxDepth) < PendingVisits(nodes, rest + [(id, depth)], maxDepth)
  {
    hide DepthFirst, DepthFirstAll, Pending, PendingVisits, Visits, VisitsAll, NodeAt;
    var budget := maxDepth - depth;
    PendingPush(nodes, rest, id, depth, maxDepth);
    InnerNode(nodes, id, budget);
    var node := NodeAt(nodes, id).value;
    Regroup(listed, [node], DepthFirstAll(nodes, node.children, budget - 1), Pending(nodes, rest, maxDepth));
  }

  lemma {:induction false} InnerNode(nodes: seq<NodeDto>, id: NodeId, budget: nat)
    requires budget > 0 && NodeAt(nodes, id).Some?
    ensures DepthFirst(nodes, id, budget)
            == [NodeAt(nodes, id).value] + DepthFirstAll(nodes, NodeAt(nodes, id).value.children, budget - 1)
    ensures Visits(nodes, id, budget) == 1 + VisitsAll(nodes, NodeAt(nodes, id).value.children, budget - 1)
  {
  }

  lemma {:induction false} Regroup(a: seq<NodeDto>, b: seq<NodeDto>, c: seq<NodeDto>, d: seq<NodeDto>)
    ensures a + ((b + c) + d) == (a + b) + (c + d)
  {
  }

  /** Lists a scope with an explicit stack. It terminates on every snapshot, also on one whose child lists loop. */
  method FilterSnapshotNodes(nodes: seq<NodeDto>, scope: Scope) returns (out: seq<NodeDto>)
    ensures scope.WholeGraph? ==> out == nodes
    ensures scope.Subtree? ==> out == DepthFirst(nodes, scope.root, scope.maxDepth)
  {
    if scope.WholeGraph? {
      return nodes;
    }
    out := [];
    var maxDepth := scope.maxDepth;
    var stack: seq<(NodeId, u32)> := [(scope.root, 0)];
    ghost var all := DepthFirst(nodes, scope.root, maxDepth);
    PendingPush(nodes, [], scope.root, 0, maxDepth);
    assert [] + [(scope.root, 0)] == stack;
    assert AddsUp(nodes, all, out, stack, maxDepth);
    while stack != []
      invariant AddsUp(nodes, all, out, stack, maxDepth)
      decreases PendingVisits(nodes, stack, maxDepth)
    {
      hide DepthFirst, PendingVisits, Pending;
      stack, out := PopTop(nodes, all, out, stack, maxDepth);
    }
  }

  /** Lists the uppermost entry and pushes its children, unless it is missing or at the depth limit. */
  method PopTop(nodes: seq<NodeDto>, ghost all: seq<NodeDto>, listed: seq<NodeDto>, entries: seq<(NodeId, u32)>,
                maxDepth: u32)
    returns (stack: seq<(NodeId, u32)>, out: seq<NodeDto>)
    requires entries != [] && AddsUp(nodes, all, listed, entries, maxDepth)
    ensures AddsUp(nodes, all, out, stack, maxDepth)
    ensures PendingVisits(nodes, stack, maxDepth) < PendingVisits(nodes, entries, maxDepth)
  {
    hide DepthFirst, DepthFirstAll, PendingVisits, Pending, Visits, VisitsAll, NodeAt;
    var (id, depth) := entries[|entries| - 1];
    var rest := entries[..|entries| - 1];
    assert entries == rest + [(id, depth)];
    stack, out := rest, listed;
    var found := NodeAt(nodes, id);
    if found.None? {
      PoppedLeaf(nodes, all, listed, rest, id, depth, maxDepth);
      assert listed + [] == listed;
      return;
    }
    out := out + [found.value];
    if depth >= maxDepth {
      PoppedLeaf(nodes, all, listed, rest, id, depth, maxDepth);
      return;
    }
    stack := PushChildren(nodes, rest, found.value.children, SaturatingNext(depth), maxDepth);
    PoppedInner(nodes, all, listed, rest, id, depth, maxDepth, stack);
  }

  // ---------------------------------------------------------------------
  // The two agree
  // ---------------------------------------------------------------------

  ghost predicate DistinctIds(nodes: seq<NodeDto>) {
    forall n, m | n in nodes && m in nodes && n.nodeId == m.nodeId :: n == m
  }

  ghost predicate OneParentEach(nodes: seq<NodeDto>) {
    forall n, m, c | n in nodes && m in nodes && c in n.children && c in m.children :: n.nodeId == m.nodeId
  }

  /** Whatever the bottom-up test accepts is listed top-down, even where a node has several parents. */
  lemma {:induction false} WithinIsListed(nodes: seq<NodeDto>, node: NodeDto, root: NodeId, budget: nat, steps: nat)
    requires DistinctIds(nodes) && node in nodes
    requires steps <= budget && Ancestor(nodes, node.nodeId, steps) == Some(root)
    ensures node in DepthFirst(nodes, root, budget)
    decreases steps
  {
    var top := NodeAt(nodes, root);
    if steps == 0 {
      assert top == Some(node);
    } else {
      var below := Ancestor(nodes, node.nodeId, steps - 1).value;
      assert top.Some? && below in top.value.children;
      hide Ancestor, NodeAt;
      WithinIsListed(nodes, node, below, budget - 1, steps - 1);
      ListedUnderSibling(nodes, top.value.children, below, node, budget - 1);
    }
  }

  lemma {:induction false} ListedUnderSibling(nodes: seq<NodeDto>, ids: seq<NodeId>, id: NodeId, node: NodeDto,
                                              budget: nat)
    requires id in ids && node in DepthFirst(nodes, id, budget)
    ensures node in DepthFirstAll(nodes, ids, budget)
    decreases |ids|
  {
    if ids[0] != id {
      ListedUnderSibling(nodes, ids[1..], id, node, budget);
    }
  }

  lemma {:induction false} ListedParent(nodes: seq<NodeDto>, parent: NodeDto, child: NodeId)
    requires OneParentEach(nodes) && parent in nodes && child in parent.children
    ensures ParentOf(nodes, child) == Some(parent.nodeId)
  {
  }

  lemma {:induction false} ListedFrom(nodes: seq<NodeDto>, node: NodeDto, root: NodeId, budget: nat)
    returns (top: NodeDto)
    requires node in DepthFirst(nodes, root, budget)
    ensures top in nodes && top.nodeId == root
    ensures node != top ==> budget > 0 && node in DepthFirstAll(nodes, top.children, budget - 1)
  {
    top := NodeAt(nodes, root).value;
  }

  /** Whatever is listed top-down climbs back to the root, provided no node has two parents. */
  lemma {:induction false} ListedIsWithin(nodes: seq<NodeDto>, node: NodeDto, root: NodeId, budget: nat)
    returns (steps: nat)
    requires OneParentEach(nodes) && node in DepthFirst(nodes, root, budget)
    ensures node in nodes && steps <= budget && Ancestor(nodes, node.nodeId, steps) == Some(root)
    decreases budget, 0
  {
    hide DepthFirst, DepthFirstAll, NodeAt;
    var top := ListedFrom(nodes, node, root, budget);
    if node == top {
      steps := 0;
    } else {
      var child, below := ListedAmongIsWithin(nodes, node, top.children, budget - 1);
      steps := below + 1;
      ListedParent(nodes, top, child);
    }
  }

  lemma {:induction false} ListedAmongIsWithin(nodes: seq<NodeDto>, node: NodeDto, ids: seq<NodeId>, budget: nat)
    returns (child: NodeId, steps: nat)
    requires OneParentEach(nodes) && node in DepthFirstAll(nodes, ids, budget)
    ensures child in ids
    ensures node in nodes && steps <= budget && Ancestor(nodes, node.nodeId, steps) == Some(child)
    decreases budget, 1, |ids|
  {
    if node in DepthFirst(nodes, ids[0], budget) {
      child := ids[0];
      steps := ListedIsWithin(nodes, node, child, budget);
    } else {
      child, steps := ListedAmongIsWithin(nodes, node, ids[1..], budget);
    }
  }

  /** A snapshot node is listed for a subtree scope exactly when the bottom-up test accepts it. */
  lemma {:induction false} ScopesAgree(nodes: seq<NodeDto>, node: NodeDto, root: NodeId, maxDepth: u32)
    requires DistinctIds(nodes) && OneParentEach(nodes)
    ensures node in DepthFirst(nodes, root, maxDepth)
            <==> node in nodes && WithinSubtree(nodes, node.nodeId, root, maxDepth)
  {
    if node in DepthFirst(nodes, root, maxDepth) {
      var steps := ListedIsWithin(nodes, node, root, maxDepth);
    }
    if node in nodes && WithinSubtree(nodes, node.nodeId, root, maxDepth) {
      var steps: nat :| steps <= maxDepth && Ancestor(nodes, node.nodeId, steps) == Some(root);
      WithinIsListed(nodes, node, root, maxDepth, steps);
    }
  }

  // ---------------------------------------------------------------------
  // On the projection of a tree: once, in preorder
  // ---------------------------------------------------------------------

  /** `nodes` lists the store, in any order. */
  ghost predicate Enumerates(nodes: seq<NodeDto>, s: Store) {
    && (forall n | n in nodes :: n.nodeId in s && s[n.nodeId] == n)
    && (forall k | k in s :: s[k] in nodes)
    && (forall k | k in s :: s[k].nodeId == k)
    && (forall i, j | 0 <= i < j < |nodes| :: nodes[i].nodeId != nodes[j].nodeId)
  }

  lemma {:induction false} EnumeratesFinds(nodes: seq<NodeDto>, s: Store, id: NodeId)
    requires Enumerates(nodes, s)
    ensures NodeAt(nodes, id) == if id in s then Some(s[id]) else None
  {
  }

  /** A tree cut off `budget` levels below its root, listed in preorder. */
  function TruncatedPreorder(t: Tree, budget: nat): seq<NodeDto>
    decreases t, 0
  {
    [t.Project()] + if budget == 0 then [] else TruncatedForest(t.kids, budget - 1)
  }

  function TruncatedForest(forest: seq<Tree>, budget: nat): seq<NodeDto>
    decreases forest, 0
  {
    if forest == [] then [] else TruncatedPreorder(forest[0], budget) + TruncatedForest(forest[1..], budget)
  }

  ghost predicate Covers(s: Store, part: Store) {
    forall k | k in part :: k in s && s[k] == part[k]
  }

  lemma {:induction false} TreeCovers(s: Store, t: Tree)
    requires WellFormed(t) && Covers(s, Flatten(t))
    ensures t.Id() in s && s[t.Id()] == t.Project()
    ensures WellFormedForest(t.kids) && Covers(s, FlattenForest(t.kids))
  {
  }

  lemma {:induction false} DepthFirstOfTree(nodes: seq<NodeDto>, s: Store, t: Tree, budget: nat)
    requires Enumerates(nodes, s) && WellFormed(t) && Covers(s, Flatten(t))
    ensures DepthFirst(nodes, t.Id(), budget) == TruncatedPreorder(t, budget)
    decreases t, 0
  {
    hide NodeAt, Enumerates, Covers, Flatten, FlattenForest, Ids, ForestIds, WellFormed, WellFormedForest;
    hide DepthFirstAll, TruncatedForest;
    EnumeratesFinds(nodes, s, t.Id());
    TreeCovers(s, t);
    if budget > 0 {
      DepthFirstOfForest(nodes, s, t.kids, budget - 1);
    }
  }

  lemma {:induction false} DepthFirstOfForest(nodes: seq<NodeDto>, s: Store, forest: seq<Tree>, budget: nat)
    requires Enumerates(nodes, s) && WellFormedForest(forest) && Covers(s, FlattenForest(forest))
    ensures DepthFirstAll(nodes, RootIds(forest), budget) == TruncatedForest(forest, budget)
    decreases forest, 0
  {
    if forest == [] {
    } else {
      assert RootIds(forest)[1..] == RootIds(forest[1..]);
      assert forall k | k in Flatten(forest[0]) :: FlattenForest(forest)[k] == Flatten(forest[0])[k];
      assert forall k | k in FlattenForest(forest[1..]) :: FlattenForest(forest)[k] == FlattenForest(forest[1..])[k];
      DepthFirstOfTree(nodes, s, forest[0], budget);
      DepthFirstOfForest(nodes, s, forest[1..], budget);
    }
  }

  ghost predicate Once(nodes: seq<NodeDto>) {
    forall i, j | 0 <= i < j < |nodes| :: nodes[i].nodeId != nodes[j].nodeId
  }

  ghost predicate AllIn(nodes: seq<NodeDto>, ids: set<NodeId>) {
    forall n | n in nodes :: n.nodeId in ids
  }

  lemma {:induction false} OnceConcat(a: seq<NodeDto>, b: seq<NodeDto>, idsA: set<NodeId>, idsB: set<NodeId>)
    requires Once(a) && Once(b) && AllIn(a, idsA) && AllIn(b, idsB) && idsA !! idsB
    ensures Once(a + b) && AllIn(a + b, idsA + idsB)
  {
  }

  lemma {:induction false} TruncatedOnce(t: Tree, budget: nat)
    requires WellFormed(t)
    ensures Once(TruncatedPreorder(t, budget)) && AllIn(TruncatedPreorder(t, budget), Ids(t))
    decreases t, 0
  {
    if budget > 0 {
      TruncatedForestOnce(t.kids, budget - 1);
      OnceConcat([t.Project()], TruncatedForest(t.kids, budget - 1), {t.Id()}, ForestIds(t.kids));
    }
  }

  lemma {:induction false} TruncatedForestOnce(forest: seq<Tree>, budget: nat)
    requires WellFormedForest(forest)
    ensures Once(TruncatedForest(forest, budget)) && AllIn(TruncatedForest(forest, budget), ForestIds(forest))
    decreases forest, 0
  {
    if forest == [] {
    } else {
      TruncatedOnce(forest[0], budget);
      TruncatedForestOnce(forest[1..], budget);
      OnceConcat(TruncatedPreorder(forest[0], budget), TruncatedForest(forest[1..], budget),
                 Ids(forest[0]), ForestIds(forest[1..]));
    }
  }

  /** A scoped listing of a live tree is the truncated preorder of the subtree, every node once. */
  lemma {:induction false} ScopeOfTree(nodes: seq<NodeDto>, t: Tree, root: NodeId, maxDepth: u32)
    requires WellFormed(t) && Enumerates(nodes, Flatten(t)) && root in Ids(t)
    ensures DepthFirst(nodes, root, maxDepth) == TruncatedPreorder(Find(t, root), maxDepth)
    ensures Once(DepthFirst(nodes, root, maxDepth))
  {
    FindFlattens(t, root);
    DepthFirstOfTree(nodes, Flatten(t), Find(t, root), maxDepth);
    TruncatedOnce(Find(t, root), maxDepth);
  }
}
