/** The engine's own scope walks, over first-child / next-sibling / parent links that may be corrupt. */
module LinkedWalk {
  import opened UiTypes
  import opened OrderedTrees
  import opened SubtreeScopes
  import opened TreeRuns
  import opened TreeEditing

  datatype Links = Links(parent: Option<NodeId>, firstChild: Option<NodeId>, nextSibling: Option<NodeId>)

  type Graph = map<NodeId, Links>

  type Entry = (NodeId, u32)

  /** The sibling chain from `child` on, cut at the first repetition or missing node. */
  function Chain(g: Graph, child: Option<NodeId>, seen: set<NodeId>): (ids: seq<NodeId>)
    ensures forall id | id in ids :: id in g && id !in seen
    decreases |g.Keys - seen|
  {
    if child.None? || child.value in seen || child.value !in g then [] else
    assert g.Keys - (seen + {child.value}) == (g.Keys - seen) - {child.value};
    [child.value] + Chain(g, g[child.value].nextSibling, seen + {child.value})
  }

  method DirectChildren(g: Graph, node: NodeId) returns (children: seq<NodeId>)
    requires node in g
    ensures children == Chain(g, g[node].firstChild, {})
  {
    children := [];
    var child := g[node].firstChild;
    var siblingChain: set<NodeId> := {};
    while child.Some?
      invariant children + Chain(g, child, siblingChain) == Chain(g, g[node].firstChild, {})
      invariant child.Some? ==> siblingChain <= g.Keys
      decreases if child.Some? then |g.Keys - siblingChain| + 1 else 0
    {
      var id := child.value;
      if id in siblingChain {
        break;
      }
      assert id in g ==> g.Keys - (siblingChain + {id}) == (g.Keys - siblingChain) - {id};
      siblingChain := siblingChain + {id};
      if id in g {
        children := children + [id];
      }
      child := if id in g then g[id].nextSibling else None;
    }
  }

  function PushReversed(stack: seq<Entry>, children: seq<NodeId>, depth: u32): seq<Entry>
    decreases |children|
  {
    if children == [] then stack
    else PushReversed(stack + [(children[|children| - 1], depth)], children[..|children| - 1], depth)
  }

  ghost predicate Live(g: Graph, stack: seq<Entry>) {
    forall e | e in stack :: e.0 in g
  }

  lemma {:induction false} PushReversedLive(g: Graph, stack: seq<Entry>, children: seq<NodeId>, depth: u32)
    requires Live(g, stack) && forall c | c in children :: c in g
    ensures Live(g, PushReversed(stack, children, depth))
    decreases |children|
  {
    if children != [] {
      PushReversedLive(g, stack + [(children[|children| - 1], depth)], children[..|children| - 1], depth);
    }
  }

  /** What one popped entry puts back on the stack. */
  function Expanded(g: Graph, rest: seq<Entry>, node: NodeId, depth: u32, maxDepth: u32): seq<Entry>
    requires node in g
  {
    if depth >= maxDepth then rest else PushReversed(rest, Chain(g, g[node].firstChild, {}), SaturatingNext(depth))
  }

  lemma {:induction false} ExpandedLive(g: Graph, rest: seq<Entry>, node: NodeId, depth: u32, maxDepth: u32)
    requires Live(g, rest) && node in g
    ensures Live(g, Expanded(g, rest, node, depth, maxDepth))
  {
    if depth < maxDepth {
      PushReversedLive(g, rest, Chain(g, g[node].firstChild, {}), SaturatingNext(depth));
    }
  }

  /** The nodes a walk still visits, in order. Every visit uses up one unvisited node, so it ends on any links. */
  ghost function Remaining(g: Graph, stack: seq<Entry>, visited: set<NodeId>, maxDepth: u32): seq<NodeId>
    requires Live(g, stack)
    decreases |g.Keys - visited|, |stack|
  {
    if stack == [] then [] else
    var (node, depth) := stack[|stack| - 1];
    var rest := stack[..|stack| - 1];
    if node in visited then Remaining(g, rest, visited, maxDepth) else
    ExpandedLive(g, rest, node, depth, maxDepth);
    assert g.Keys - (visited + {node}) == (g.Keys - visited) - {node};
    [node] + Remaining(g, Expanded(g, rest, node, depth, maxDepth), visited + {node}, maxDepth)
  }

  ghost predicate Distinct(ids: seq<NodeId>) {
    forall i, j | 0 <= i < j < |ids| :: ids[i] != ids[j]
  }

  lemma {:induction false} RemainingIsFresh(g: Graph, stack: seq<Entry>, visited: set<NodeId>, maxDepth: u32)
    requires Live(g, stack)
    ensures Distinct(Remaining(g, stack, visited, maxDepth))
    ensures forall id | id in Remaining(g, stack, visited, maxDepth) :: id in g && id !in visited
    decreases |g.Keys - visited|, |stack|
  {
    if stack != [] {
      var (node, depth) := stack[|stack| - 1];
      var rest := stack[..|stack| - 1];
      if node in visited {
        RemainingIsFresh(g, rest, visited, maxDepth);
      } else {
        ExpandedLive(g, rest, node, depth, maxDepth);
        assert g.Keys - (visited + {node}) == (g.Keys - visited) - {node};
        RemainingIsFresh(g, Expanded(g, rest, node, depth, maxDepth), visited + {node}, maxDepth);
      }
    }
  }

  lemma {:induction false} RemainingStep(g: Graph, rest: seq<Entry>, node: NodeId, depth: u32, visited: set<NodeId>,
                                         maxDepth: u32)
    requires Live(g, rest) && node in g
    ensures Live(g, rest + [(node, depth)]) && Live(g, Expanded(g, rest, node, depth, maxDepth))
    ensures node in visited ==>
              Remaining(g, rest + [(node, depth)], visited, maxDepth) == Remaining(g, rest, visited, maxDepth)
    ensures node !in visited ==>
              Remaining(g, rest + [(node, depth)], visited, maxDepth)
              == [node] + Remaining(g, Expanded(g, rest, node, depth, maxDepth), visited + {node}, maxDepth)
  {
    var stack := rest + [(node, depth)];
    assert stack[..|stack| - 1] == rest && stack[|stack| - 1] == (node, depth);
    ExpandedLive(g, rest, node, depth, maxDepth);
  }

  method PushAll(rest: seq<Entry>, children: seq<NodeId>, depth: u32) returns (stack: seq<Entry>)
    ensures stack == PushReversed(rest, children, depth)
  {
    stack := rest;
    var i := |children|;
    assert children[..i] == children;
    while i > 0
      invariant 0 <= i <= |children|
      invariant PushReversed(stack, children[..i], depth) == PushReversed(rest, children, depth)
    {
      i := i - 1;
      assert children[..i + 1][..i] == children[..i];
      stack := stack + [(children[i], depth)];
    }
  }

  /** Lists a subtree. On any links, however corrupt, the walk ends and lists live nodes, none of them twice. */
  method CollectSubtreeNodes(g: Graph, root: NodeId, maxDepth: u32) returns (nodes: seq<NodeId>)
    ensures Distinct(nodes)
    ensures forall id | id in nodes :: id in g
    ensures root !in g ==> nodes == []
    ensures root in g ==> nodes == Remaining(g, [(root, 0)], {}, maxDepth)
  {
    nodes := [];
    if root !in g {
      return;
    }
    var stack: seq<Entry> := [(root, 0)];
    var visited: set<NodeId> := {};
    ghost var all := Remaining(g, stack, visited, maxDepth);
    while stack != []
      invariant Live(g, stack)
      invariant nodes + Remaining(g, stack, visited, maxDepth) == all
      decreases |g.Keys - visited|, |stack|
    {
      hide Remaining, Chain, PushReversed;
      var (node, depth) := stack[|stack| - 1];
      var rest := stack[..|stack| - 1];
      assert stack == rest + [(node, depth)];
      RemainingStep(g, rest, node, depth, visited, maxDepth);
      stack := rest;
      if node in visited {
        continue;
      }
      assert g.Keys - (visited + {node}) == (g.Keys - visited) - {node};
      Associate(nodes, [node], Remaining(g, Expanded(g, rest, node, depth, maxDepth), visited + {node}, maxDepth));
      visited := visited + {node};
      nodes := nodes + [node];
      if depth >= maxDepth {
        continue;
      }
      var children := DirectChildren(g, node);
      stack := PushAll(rest, children, SaturatingNext(depth));
    }
    assert nodes == Remaining(g, [(root, 0)], {}, maxDepth);
    RemainingIsFresh(g, [(root, 0)], {}, maxDepth);
  }

  // ---------------------------------------------------------------------
  // The parent walk
  // ---------------------------------------------------------------------

  function Up(g: Graph, node: NodeId, steps: nat): Option<NodeId> {
    if steps == 0 then Some(node) else
    match Up(g, node, steps - 1)
    case None => None
    case Some(below) => if below in g then g[below].parent else None
  }

  /** Once a climb comes back to a node it has left, it only repeats itself. */
  lemma {:induction false} ClimbRepeats(g: Graph, node: NodeId, i: nat, j: nat, more: nat)
    requires i < j && Up(g, node, i) == Up(g, node, j)
    ensures Up(g, node, i + more) == Up(g, node, j + more)
    decreases more
  {
    if more > 0 {
      ClimbRepeats(g, node, i, j, more - 1);
    }
  }

  lemma {:induction false} RepeatedClimbMisses(g: Graph, node: NodeId, root: NodeId, i: nat, j: nat, steps: nat)
    requires i < j && Up(g, node, i) == Up(g, node, j)
    requires forall k: nat | k < j :: Up(g, node, k) != Some(root)
    ensures Up(g, node, steps) != Some(root)
    decreases steps
  {
    if steps >= j {
      ClimbRepeats(g, node, i, j, steps - j);
      RepeatedClimbMisses(g, node, root, i, j, i + (steps - j));
    }
  }

  lemma {:induction false} UpStaysNone(g: Graph, node: NodeId, top: nat, steps: nat)
    requires Up(g, node, top).None? && top <= steps
    ensures Up(g, node, steps).None?
    decreases steps
  {
    if steps > top {
      UpStaysNone(g, node, top, steps - 1);
    }
  }

  /** Climbs parent links. The answer is right on any links: a cycle
      that misses `root` is left at its first repetition. */
  method NodeWithinSubtree(g: Graph, node: NodeId, root: NodeId, maxDepth: u32) returns (within: bool)
    ensures within <==> exists steps: nat :: steps <= maxDepth && Up(g, node, steps) == Some(root)
  {
    var current := Some(node);
    var depth: u32 := 0;
    var visited: set<NodeId> := {};
    ghost var steps: nat := 0;
    while current.Some?
      invariant steps <= maxDepth + 1 && depth == (if steps <= 0xFFFF_FFFF then steps else 0xFFFF_FFFF)
      invariant steps <= maxDepth || current.None?
      invariant Up(g, node, steps) == current
      invariant forall k: nat | k < steps :: Up(g, node, k) != Some(root)
      invariant forall id | id in visited :: exists k: nat :: k < steps && Up(g, node, k) == Some(id)
      decreases maxDepth + 1 - steps
    {
      var id := current.value;
      if id in visited {
        ghost var k: nat :| k < steps && Up(g, node, k) == Some(id);
        forall n: nat
          ensures Up(g, node, n) != Some(root)
        {
          RepeatedClimbMisses(g, node, root, k, steps, n);
        }
        return false;
      }
      visited := visited + {id};
      if id == root {
        return depth <= maxDepth;
      }
      if depth >= maxDepth {
        return false;
      }
      current := if id in g then g[id].parent else None;
      depth := SaturatingNext(depth);
      steps := steps + 1;
    }
    forall n: nat
      ensures Up(g, node, n) != Some(root)
    {
      if n >= steps {
        UpStaysNone(g, node, steps, n);
      }
    }
    return false;
  }

  // ---------------------------------------------------------------------
  // On links that represent a tree
  // ---------------------------------------------------------------------

  function FirstId(forest: seq<Tree>): Option<NodeId> {
    if forest == [] then None else Some(forest[0].Id())
  }

  /** The links of `g` represent `t`. */
  predicate Linked(g: Graph, t: Tree)
    decreases t, 0
  {
    && t.Id() in g
    && g[t.Id()].firstChild == FirstId(t.kids)
    && LinkedForest(g, t.kids, t.Id())
  }

  predicate LinkedForest(g: Graph, forest: seq<Tree>, parent: NodeId)
    decreases forest, 0
  {
    forest == [] ||
    (&& Linked(g, forest[0])
     && g[forest[0].Id()].nextSibling == FirstId(forest[1..])
     && g[forest[0].Id()].parent == Some(parent)
     && LinkedForest(g, forest[1..], parent))
  }

  lemma {:induction false} ChainOfForest(g: Graph, forest: seq<Tree>, parent: NodeId, seen: set<NodeId>)
    requires LinkedForest(g, forest, parent) && WellFormedForest(forest) && seen !! ForestIds(forest)
    ensures Chain(g, FirstId(forest), seen) == RootIds(forest)
    decreases forest
  {
    if forest != [] {
      ChainOfForest(g, forest[1..], parent, seen + {forest[0].Id()});
      assert RootIds(forest) == [forest[0].Id()] + RootIds(forest[1..]);
    }
  }

  lemma {:induction false} PushReversedSplits(rest: seq<Entry>, head: NodeId, tail: seq<NodeId>, depth: u32)
    ensures PushReversed(rest, [head] + tail, depth) == PushReversed(rest, tail, depth) + [(head, depth)]
    decreases |tail|
  {
    var all := [head] + tail;
    if tail == [] {
      assert all == [head] && all[..0] == [];
    } else {
      var last, front := tail[|tail| - 1], tail[..|tail| - 1];
      assert all[..|all| - 1] == [head] + front;
      PushReversedSplits(rest + [(last, depth)], head, front, depth);
    }
  }

  function Deeper(rest: seq<Entry>, kids: seq<Tree>, depth: u32, maxDepth: u32): seq<Entry> {
    if depth < maxDepth then PushReversed(rest, RootIds(kids), SaturatingNext(depth)) else rest
  }

  lemma {:induction false} WalkOfRoot(g: Graph, rest: seq<Entry>, visited: set<NodeId>, t: Tree, depth: u32,
                                      maxDepth: u32)
    requires Live(g, rest) && Linked(g, t) && WellFormed(t) && t.Id() !in visited
    ensures Live(g, rest + [(t.Id(), depth)]) && Live(g, Deeper(rest, t.kids, depth, maxDepth))
    ensures Remaining(g, rest + [(t.Id(), depth)], visited, maxDepth)
            == [t.Id()] + Remaining(g, Deeper(rest, t.kids, depth, maxDepth), visited + {t.Id()}, maxDepth)
  {
    RemainingStep(g, rest, t.Id(), depth, visited, maxDepth);
    ChainOfForest(g, t.kids, t.Id(), {});
    hide Remaining, Chain, PushReversed;
    assert Expanded(g, rest, t.Id(), depth, maxDepth) == Deeper(rest, t.kids, depth, maxDepth);
  }

  /** Popping a tree whose nodes are all unvisited lists its truncated preorder and then whatever lay under it. */
  lemma {:induction false} WalkOfTree(g: Graph, rest: seq<Entry>, visited: set<NodeId>, t: Tree, depth: u32,
                                      maxDepth: u32)
    returns (after: set<NodeId>)
    requires Live(g, rest) && Linked(g, t) && WellFormed(t) && visited !! Ids(t) && depth <= maxDepth
    ensures visited <= after <= visited + Ids(t)
    ensures Live(g, rest + [(t.Id(), depth)])
    ensures Remaining(g, rest + [(t.Id(), depth)], visited, maxDepth)
            == NodeIds(TruncatedPreorder(t, maxDepth - depth)) + Remaining(g, rest, after, maxDepth)
    decreases t, 0
  {
    hide Remaining, Chain, TruncatedPreorder, TruncatedForest, NodeIds, PushReversed, Live;
    WalkOfRoot(g, rest, visited, t, depth, maxDepth);
    TruncatedIds(t, maxDepth - depth);
    after := visited + {t.Id()};
    if depth < maxDepth {
      after := WalkOfForest(g, rest, after, t.kids, t.Id(), depth + 1, maxDepth);
      Associate([t.Id()], NodeIds(TruncatedForest(t.kids, maxDepth - depth - 1)), Remaining(g, rest, after, maxDepth));
    }
  }

  lemma {:induction false} Associate(a: seq<NodeId>, b: seq<NodeId>, c: seq<NodeId>)
    ensures a + (b + c) == (a + b) + c
  {
  }

  lemma {:induction false} TruncatedIds(t: Tree, budget: nat)
    ensures NodeIds(TruncatedPreorder(t, budget))
            == if budget == 0 then [t.Id()] else [t.Id()] + NodeIds(TruncatedForest(t.kids, budget - 1))
  {
  }

  lemma {:induction false} WalkOfForest(g: Graph, rest: seq<Entry>, visited: set<NodeId>, forest: seq<Tree>,
                                        parent: NodeId, depth: u32, maxDepth: u32)
    returns (after: set<NodeId>)
    requires Live(g, rest) && LinkedForest(g, forest, parent) && WellFormedForest(forest)
    requires visited !! ForestIds(forest) && depth <= maxDepth
    ensures visited <= after <= visited + ForestIds(forest)
    ensures Live(g, PushReversed(rest, RootIds(forest), depth))
    ensures Remaining(g, PushReversed(rest, RootIds(forest), depth), visited, maxDepth)
            == NodeIds(TruncatedForest(forest, maxDepth - depth)) + Remaining(g, rest, after, maxDepth)
    decreases forest, 0
  {
    if forest == [] {
      after := visited;
    } else {
      var head, tail := forest[0], forest[1..];
      ForestOnStack(g, rest, forest, parent, depth, maxDepth);
      hide Remaining, Chain, TruncatedPreorder, TruncatedForest, NodeIds, PushReversed, Live, Linked, WellFormed;
      hide RootIds;
      var between := PushReversed(rest, RootIds(tail), depth);
      var middle := WalkOfTree(g, between, visited, head, depth, maxDepth);
      after := WalkOfForest(g, rest, middle, tail, parent, depth, maxDepth);
      Associate(NodeIds(TruncatedPreorder(head, maxDepth - depth)), NodeIds(TruncatedForest(tail, maxDepth - depth)),
                Remaining(g, rest, after, maxDepth));
    }
  }

  lemma {:induction false} RootIdsSplit(head: Tree, tail: seq<Tree>)
    ensures RootIds([head] + tail) == [head.Id()] + RootIds(tail)
  {
  }

  /** The first tree of a pushed forest is uppermost, and what it lists comes first. */
  lemma {:induction false} ForestOnStack(g: Graph, rest: seq<Entry>, forest: seq<Tree>, parent: NodeId, depth: u32,
                                         maxDepth: u32)
    requires Live(g, rest) && LinkedForest(g, forest, parent) && forest != [] && depth <= maxDepth
    ensures var head, tail, budget := forest[0], forest[1..], maxDepth - depth;
            && PushReversed(rest, RootIds(forest), depth)
               == PushReversed(rest, RootIds(tail), depth) + [(head.Id(), depth)]
            && Live(g, PushReversed(rest, RootIds(tail), depth))
            && NodeIds(TruncatedForest(forest, budget))
               == NodeIds(TruncatedPreorder(head, budget)) + NodeIds(TruncatedForest(tail, budget))
  {
    var head, tail := forest[0], forest[1..];
    assert LinkedForest(g, tail, parent);
    hide TruncatedPreorder, TruncatedForest, NodeIds, PushReversed, LinkedForest, Live;
    assert forest == [head] + tail;
    RootIdsSplit(head, tail);
    hide RootIds;
    PushReversedSplits(rest, head.Id(), RootIds(tail), depth);
    RootsLive(g, tail, parent);
    PushReversedLive(g, rest, RootIds(tail), depth);
  }

  lemma {:induction false} RootsLive(g: Graph, forest: seq<Tree>, parent: NodeId)
    requires LinkedForest(g, forest, parent)
    ensures forall id | id in RootIds(forest) :: id in g
  {
    if forest != [] {
      RootsLive(g, forest[1..], parent);
      assert RootIds(forest) == [forest[0].Id()] + RootIds(forest[1..]);
    }
  }

  lemma {:induction false} FindLinked(g: Graph, t: Tree, p: NodeId)
    requires Linked(g, t) && p in Ids(t)
    ensures Linked(g, Find(t, p))
    decreases t, 0
  {
    if t.Id() != p {
      FindInForestLinked(g, t.kids, t.Id(), p);
    }
  }

  lemma {:induction false} FindInForestLinked(g: Graph, forest: seq<Tree>, parent: NodeId, p: NodeId)
    requires LinkedForest(g, forest, parent) && p in ForestIds(forest)
    ensures Linked(g, FindInForest(forest, p))
    decreases forest, 0
  {
    if p in Ids(forest[0]) {
      FindLinked(g, forest[0], p);
    } else {
      FindInForestLinked(g, forest[1..], parent, p);
    }
  }

  /** The engine lists a subtree as its truncated preorder: the same nodes in the same order as the snapshot listing. */
  lemma {:induction false} WalkListsTruncatedPreorder(g: Graph, t: Tree, root: NodeId, maxDepth: u32)
    requires Linked(g, t) && WellFormed(t) && root in Ids(t)
    ensures Live(g, [(root, 0)])
    ensures Remaining(g, [(root, 0)], {}, maxDepth) == NodeIds(TruncatedPreorder(Find(t, root), maxDepth))
  {
    FindLinked(g, t, root);
    var after := WalkOfTree(g, [], {}, Find(t, root), 0, maxDepth);
    assert [] + [(root, 0)] == [(root, 0)];
  }

  // ---------------------------------------------------------------------
  // The engine's walks and the snapshot's tests give one answer
  // ---------------------------------------------------------------------

  ghost predicate ParentLinksFollow(g: Graph, s: Store) {
    forall k, c | k in s && c in s[k].children :: c in g && g[c].parent == Some(k)
  }

  lemma {:induction false} LinkedParents(g: Graph, t: Tree)
    requires Linked(g, t)
    ensures ParentLinksFollow(g, Flatten(t))
    decreases t, 0
  {
    LinkedForestParents(g, t.kids, t.Id());
  }

  lemma {:induction false} LinkedForestParents(g: Graph, forest: seq<Tree>, parent: NodeId)
    requires LinkedForest(g, forest, parent)
    ensures ParentLinksFollow(g, FlattenForest(forest))
    ensures forall id | id in RootIds(forest) :: id in g && g[id].parent == Some(parent)
    decreases forest, 0
  {
    if forest != [] {
      LinkedParents(g, forest[0]);
      LinkedForestParents(g, forest[1..], parent);
      assert RootIds(forest) == [forest[0].Id()] + RootIds(forest[1..]);
    }
  }

  ghost predicate ListedAsChild(s: Store, c: NodeId) {
    exists k :: k in s && c in s[k].children
  }

  lemma {:induction false} NonRootsAreListed(t: Tree)
    requires WellFormed(t)
    ensures forall c | c in Ids(t) && c != t.Id() :: ListedAsChild(Flatten(t), c)
    decreases t, 0
  {
    ForestNonRootsAreListed(t.kids);
    forall c | c in ForestIds(t.kids)
      ensures ListedAsChild(Flatten(t), c)
    {
      if c in RootIds(t.kids) {
        assert c in Flatten(t)[t.Id()].children;
      } else {
        var k :| k in FlattenForest(t.kids) && c in FlattenForest(t.kids)[k].children;
        assert c in Flatten(t)[k].children;
      }
    }
  }

  lemma {:induction false} ForestNonRootsAreListed(forest: seq<Tree>)
    requires WellFormedForest(forest)
    ensures forall c | c in ForestIds(forest) && c !in RootIds(forest) :: ListedAsChild(FlattenForest(forest), c)
    decreases forest, 0
  {
    if forest != [] {
      var head, rest := forest[0], forest[1..];
      NonRootsAreListed(head);
      ForestNonRootsAreListed(rest);
      assert RootIds(forest) == [head.Id()] + RootIds(rest);
      forall c | c in ForestIds(forest) && c !in RootIds(forest)
        ensures ListedAsChild(FlattenForest(forest), c)
      {
        if c in Ids(head) {
          var k :| k in Flatten(head) && c in Flatten(head)[k].children;
          assert c in FlattenForest(forest)[k].children;
        } else {
          var k :| k in FlattenForest(rest) && c in FlattenForest(rest)[k].children;
          assert c in FlattenForest(forest)[k].children;
        }
      }
    }
  }

  lemma {:induction false} TreeSnapshotHasOneParentEach(nodes: seq<NodeDto>, t: Tree)
    requires WellFormed(t) && Enumerates(nodes, Flatten(t))
    ensures DistinctIds(nodes) && OneParentEach(nodes)
  {
    TreeIsForestShaped(t);
  }

  lemma {:induction false} ParentLinkInStore(g: Graph, nodes: seq<NodeDto>, s: Store, root: NodeId, c: NodeId)
    requires ParentLinksFollow(g, s) && Enumerates(nodes, s) && c in s && root in g && g[root].parent.None?
    requires c != root ==> ListedAsChild(s, c)
    ensures c in g && ParentOf(nodes, c) == g[c].parent
    ensures ParentOf(nodes, c).Some? ==> ParentOf(nodes, c).value in s
  {
  }

  /** Searching the snapshot for a parent finds what the parent link says. */
  lemma {:induction false} ParentLinkIsParentOf(g: Graph, nodes: seq<NodeDto>, t: Tree, c: NodeId)
    requires Linked(g, t) && WellFormed(t) && Enumerates(nodes, Flatten(t)) && c in Ids(t)
    requires g[t.Id()].parent.None?
    ensures c in g && ParentOf(nodes, c) == g[c].parent
    ensures ParentOf(nodes, c).Some? ==> ParentOf(nodes, c).value in Ids(t)
  {
    LinkedParents(g, t);
    NonRootsAreListed(t);
    hide *;
    ParentLinkInStore(g, nodes, Flatten(t), t.Id(), c);
  }

  lemma {:induction false} UpIsAncestor(g: Graph, nodes: seq<NodeDto>, t: Tree, c: NodeId, steps: nat)
    requires Linked(g, t) && WellFormed(t) && Enumerates(nodes, Flatten(t)) && c in Ids(t)
    requires g[t.Id()].parent.None?
    ensures Up(g, c, steps) == Ancestor(nodes, c, steps)
    ensures Up(g, c, steps).Some? ==> Up(g, c, steps).value in Ids(t)
    decreases steps
  {
    if steps > 0 {
      UpIsAncestor(g, nodes, t, c, steps - 1);
      if Up(g, c, steps - 1).Some? {
        ParentLinkIsParentOf(g, nodes, t, Up(g, c, steps - 1).value);
      }
    }
  }

  lemma {:induction false} ListedAreNodes(nodes: seq<NodeDto>, root: NodeId, maxDepth: u32)
    requires DistinctIds(nodes) && OneParentEach(nodes)
    ensures forall n | n in DepthFirst(nodes, root, maxDepth) :: n in nodes
  {
    forall n | n in DepthFirst(nodes, root, maxDepth)
      ensures n in nodes
    {
      ScopesAgree(nodes, n, root, maxDepth);
    }
  }

  /** Links and snapshot of one live tree: both list the same ids in the same order. */
  lemma {:induction false} EngineAndSnapshotListAlike(g: Graph, nodes: seq<NodeDto>, t: Tree, root: NodeId,
                                                      maxDepth: u32)
    requires Linked(g, t) && WellFormed(t) && Enumerates(nodes, Flatten(t)) && root in Ids(t)
    ensures Live(g, [(root, 0)])
    ensures Remaining(g, [(root, 0)], {}, maxDepth) == NodeIds(DepthFirst(nodes, root, maxDepth))
  {
    WalkListsTruncatedPreorder(g, t, root, maxDepth);
    ScopeOfTree(nodes, t, root, maxDepth);
  }

  /** Both climbs agree, and a node is listed exactly when its climb reaches the root within the depth. */
  lemma {:induction false} EngineAndSnapshotAgree(g: Graph, nodes: seq<NodeDto>, t: Tree, c: NodeId, root: NodeId,
                                                  maxDepth: u32)
    requires Linked(g, t) && WellFormed(t) && Enumerates(nodes, Flatten(t)) && g[t.Id()].parent.None?
    requires c in Ids(t) && root in Ids(t)
    ensures Live(g, [(root, 0)])
    ensures Climbs(nodes, c, root, maxDepth)
            <==> exists steps: nat :: steps <= maxDepth && Up(g, c, steps) == Some(root)
    ensures c in Remaining(g, [(root, 0)], {}, maxDepth) <==> Climbs(nodes, c, root, maxDepth)
  {
    hide *;
    EngineAndSnapshotListAlike(g, nodes, t, root, maxDepth);
    ClimbsMeetLinks(g, nodes, t, c, root, maxDepth);
    TreeSnapshotHasOneParentEach(nodes, t);
    ScopesAgree(nodes, Flatten(t)[c], root, maxDepth);
    ClimbsReachesAncestors(nodes, c, root, maxDepth);
    ListedAreNodes(nodes, root, maxDepth);
    EnumeratedNode(nodes, Flatten(t), c);
  }

  lemma {:induction false} EnumeratedNode(nodes: seq<NodeDto>, s: Store, c: NodeId)
    requires Enumerates(nodes, s) && c in s
    ensures s[c] in nodes && s[c].nodeId == c
  {
  }

  lemma {:induction false} ClimbsMeetLinks(g: Graph, nodes: seq<NodeDto>, t: Tree, c: NodeId, root: NodeId,
                                           maxDepth: u32)
    requires Linked(g, t) && WellFormed(t) && Enumerates(nodes, Flatten(t)) && g[t.Id()].parent.None? && c in Ids(t)
    ensures Climbs(nodes, c, root, maxDepth)
            <==> exists steps: nat :: steps <= maxDepth && Up(g, c, steps) == Some(root)
  {
    ClimbsReachesAncestors(nodes, c, root, maxDepth);
    forall steps: nat
      ensures Up(g, c, steps) == Ancestor(nodes, c, steps)
    {
      UpIsAncestor(g, nodes, t, c, steps);
    }
    if Climbs(nodes, c, root, maxDepth) {
      var steps: nat :| steps <= maxDepth && Ancestor(nodes, c, steps) == Some(root);
      assert Up(g, c, steps) == Some(root);
    }
    if steps: nat :| steps <= maxDepth && Up(g, c, steps) == Some(root) {
      assert Ancestor(nodes, c, steps) == Some(root);
    }
  }
}
