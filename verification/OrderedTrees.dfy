/** Ordered node trees and their projection to the flat node store. */
module OrderedTrees {
  import opened UiTypes

  /** A node with its ordered children. The `children` field of `dto` is ignored: `kids` owns the order. */
  datatype Tree = Tree(dto: NodeDto, kids: seq<Tree>) {
    function Id(): NodeId {
      dto.nodeId
    }

    /** The node as the UI sees it: its payload and the ids of its direct children. */
    function Project(): NodeDto {
      dto.(children := RootIds(kids))
    }
  }

  function RootIds(forest: seq<Tree>): (ids: seq<NodeId>)
    ensures |ids| == |forest|
    ensures forall i | 0 <= i < |forest| :: ids[i] == forest[i].Id()
  {
    seq(|forest|, i requires 0 <= i < |forest| => forest[i].Id())
  }

  function Ids(t: Tree): set<NodeId> {
    {t.Id()} + ForestIds(t.kids)
  }

  function ForestIds(forest: seq<Tree>): set<NodeId> {
    if forest == [] then {} else Ids(forest[0]) + ForestIds(forest[1..])
  }

  /** No id occurs twice. */
  predicate WellFormed(t: Tree) {
    t.Id() !in ForestIds(t.kids) && WellFormedForest(t.kids)
  }

  predicate WellFormedForest(forest: seq<Tree>) {
    forest == [] ||
    (WellFormed(forest[0]) && WellFormedForest(forest[1..]) && Ids(forest[0]) !! ForestIds(forest[1..]))
  }

  function Flatten(t: Tree): (s: Store)
    ensures s.Keys == Ids(t)
  {
    FlattenForest(t.kids)[t.Id() := t.Project()]
  }

  function FlattenForest(forest: seq<Tree>): (s: Store)
    ensures s.Keys == ForestIds(forest)
  {
    if forest == [] then map[] else FlattenForest(forest[1..]) + Flatten(forest[0])
  }

  /** The subtree rooted at `p`. */
  function Find(t: Tree, p: NodeId): (r: Tree)
    requires p in Ids(t)
    ensures r.Id() == p
    ensures Ids(r) <= Ids(t)
    ensures WellFormed(t) ==> WellFormed(r)
    decreases t, 0
  {
    if t.Id() == p then t else FindInForest(t.kids, p)
  }

  function FindInForest(forest: seq<Tree>, p: NodeId): (r: Tree)
    requires p in ForestIds(forest)
    ensures r.Id() == p
    ensures Ids(r) <= ForestIds(forest)
    ensures WellFormedForest(forest) ==> WellFormed(r)
    decreases forest, 0
  {
    if p in Ids(forest[0]) then Find(forest[0], p) else FindInForest(forest[1..], p)
  }

  /** The tree with the payload and the children of node `p` replaced. */
  function Replace(t: Tree, p: NodeId, dto: NodeDto, kids: seq<Tree>): Tree {
    if t.Id() == p then Tree(dto, kids) else Tree(t.dto, ReplaceInForest(t.kids, p, dto, kids))
  }

  function ReplaceInForest(forest: seq<Tree>, p: NodeId, dto: NodeDto, kids: seq<Tree>): seq<Tree> {
    if forest == [] then [] else [Replace(forest[0], p, dto, kids)] + ReplaceInForest(forest[1..], p, dto, kids)
  }

  /** Root and descendants, depth first. */
  function Preorder(t: Tree): seq<NodeDto> {
    [t.Project()] + PreorderForest(t.kids)
  }

  function PreorderForest(forest: seq<Tree>): seq<NodeDto> {
    if forest == [] then [] else Preorder(forest[0]) + PreorderForest(forest[1..])
  }

  // ---------------------------------------------------------------------
  // Forests
  // ---------------------------------------------------------------------

  lemma {:induction false} ForestConcat(a: seq<Tree>, b: seq<Tree>)
    ensures ForestIds(a + b) == ForestIds(a) + ForestIds(b)
    ensures WellFormedForest(a + b) <==> WellFormedForest(a) && WellFormedForest(b) && ForestIds(a) !! ForestIds(b)
    ensures ForestIds(a) !! ForestIds(b) ==> FlattenForest(a + b) == FlattenForest(a) + FlattenForest(b)
  {
    if a == [] {
      assert a + b == b;
    } else {
      assert (a + b)[1..] == a[1..] + b;
      ForestConcat(a[1..], b);
      hide WellFormed, Ids, Flatten;
    }
  }

  lemma {:induction false} ForestOfOne(t: Tree)
    ensures ForestIds([t]) == Ids(t)
    ensures WellFormedForest([t]) <==> WellFormed(t)
    ensures FlattenForest([t]) == Flatten(t)
  {
    assert [t][1..] == [];
  }

  /** A forest around its `i`-th tree. */
  lemma {:induction false} ForestAround(forest: seq<Tree>, i: nat)
    requires i < |forest| && WellFormedForest(forest)
    ensures var rest := forest[..i] + forest[i + 1..];
            && WellFormedForest(rest)
            && WellFormed(forest[i])
            && Ids(forest[i]) !! ForestIds(rest)
            && ForestIds(forest) == ForestIds(rest) + Ids(forest[i])
            && FlattenForest(rest) == FlattenForest(forest) - Ids(forest[i])
            && (forall k | k in Ids(forest[i]) :: FlattenForest(forest)[k] == Flatten(forest[i])[k])
  {
    var a, x, b := forest[..i], forest[i], forest[i + 1..];
    assert forest == a + ([x] + b);
    ForestOfOne(x);
    ForestConcat(a, [x] + b);
    ForestConcat([x], b);
    ForestConcat(a, b);
    hide WellFormedForest, ForestIds, FlattenForest, WellFormed, Ids, Flatten;
  }

  /** A forest with a tree put in at position `j`. */
  lemma {:induction false} ForestWith(forest: seq<Tree>, j: nat, x: Tree)
    requires j <= |forest| && WellFormedForest(forest) && WellFormed(x) && Ids(x) !! ForestIds(forest)
    ensures var wide := forest[..j] + [x] + forest[j..];
            && WellFormedForest(wide)
            && ForestIds(wide) == ForestIds(forest) + Ids(x)
            && FlattenForest(wide) == FlattenForest(forest) + Flatten(x)
  {
    var a, b := forest[..j], forest[j..];
    assert forest == a + b;
    assert a + [x] + b == a + ([x] + b);
    ForestOfOne(x);
    ForestConcat(a, b);
    ForestConcat([x], b);
    ForestConcat(a, [x] + b);
    hide WellFormedForest, ForestIds, FlattenForest, WellFormed, Ids, Flatten;
  }

  // ---------------------------------------------------------------------
  // Finding and replacing against the flat store
  // ---------------------------------------------------------------------

  lemma {:induction false} FindFlattens(t: Tree, p: NodeId)
    requires WellFormed(t) && p in Ids(t)
    ensures forall k | k in Ids(Find(t, p)) :: Flatten(t)[k] == Flatten(Find(t, p))[k]
    decreases t, 0
  {
    if t.Id() == p {
    } else {
      FindInForestFlattens(t.kids, p);
    }
  }

  lemma {:induction false} FindInForestFlattens(forest: seq<Tree>, p: NodeId)
    requires WellFormedForest(forest) && p in ForestIds(forest)
    ensures forall k | k in Ids(FindInForest(forest, p)) ::
              FlattenForest(forest)[k] == Flatten(FindInForest(forest, p))[k]
    decreases forest, 0
  {
    if p in Ids(forest[0]) {
      FindFlattens(forest[0], p);
    } else {
      FindInForestFlattens(forest[1..], p);
    }
  }

  lemma {:induction false} ReplaceMisses(t: Tree, p: NodeId, dto: NodeDto, kids: seq<Tree>)
    requires p !in Ids(t)
    ensures Replace(t, p, dto, kids) == t
    decreases t, 0
  {
    ReplaceInForestMisses(t.kids, p, dto, kids);
  }

  lemma {:induction false} ReplaceInForestMisses(forest: seq<Tree>, p: NodeId, dto: NodeDto, kids: seq<Tree>)
    requires p !in ForestIds(forest)
    ensures ReplaceInForest(forest, p, dto, kids) == forest
    decreases forest, 0
  {
    if forest == [] {
    } else {
      ReplaceMisses(forest[0], p, dto, kids);
      ReplaceInForestMisses(forest[1..], p, dto, kids);
    }
  }

  /** `kids` may take the place of the children of `hole` in a tree with ids `all`. */
  ghost predicate Fits(all: set<NodeId>, hole: Tree, dto: NodeDto, kids: seq<Tree>) {
    && dto.nodeId == hole.Id()
    && WellFormedForest(kids)
    && ForestIds(kids) !! (all - ForestIds(hole.kids))
    && hole.Id() !in ForestIds(kids)
  }

  /** A store with some nodes gone, some added and one rewritten. */
  function Patched(s: Store, gone: set<NodeId>, added: Store, p: NodeId, node: NodeDto): Store {
    (s - gone + added)[p := node]
  }

  lemma {:induction false} PatchedBeside(s: Store, other: Store, gone: set<NodeId>, added: Store, p: NodeId,
                                         node: NodeDto)
    requires other.Keys !! gone && other.Keys !! added.Keys && p !in other
    ensures other + Patched(s, gone, added, p, node) == Patched(other + s, gone, added, p, node)
    ensures s.Keys !! other.Keys ==>
              Patched(s, gone, added, p, node) + other == Patched(s + other, gone, added, p, node)
  {
  }

  lemma {:induction false} PatchedUnder(s: Store, gone: set<NodeId>, added: Store, p: NodeId, node: NodeDto,
                                        root: NodeId, rootNode: NodeDto)
    requires root != p && root !in gone && root !in added
    ensures Patched(s, gone, added, p, node)[root := rootNode] == Patched(s[root := rootNode], gone, added, p, node)
  {
  }

  /** `after` is `before` with the descendants of `hole` dropped,
      those in `kids` added and the node itself rewritten. */
  ghost predicate ForestRewritten(before: seq<Tree>, after: seq<Tree>, hole: Tree, dto: NodeDto, kids: seq<Tree>) {
    && WellFormedForest(after)
    && RootIds(after) == RootIds(before)
    && ForestIds(after) == (ForestIds(before) - ForestIds(hole.kids)) + ForestIds(kids)
    && FlattenForest(after) == Patched(FlattenForest(before), ForestIds(hole.kids), FlattenForest(kids), hole.Id(),
                                       Tree(dto, kids).Project())
  }

  ghost predicate TreeRewritten(before: Tree, after: Tree, hole: Tree, dto: NodeDto, kids: seq<Tree>) {
    && WellFormed(after)
    && after.Id() == before.Id()
    && Ids(after) == (Ids(before) - ForestIds(hole.kids)) + ForestIds(kids)
    && Flatten(after) == Patched(Flatten(before), ForestIds(hole.kids), FlattenForest(kids), hole.Id(),
                                 Tree(dto, kids).Project())
  }

  lemma {:induction false} HeadRewritten(head: Tree, rest: seq<Tree>, newHead: Tree, hole: Tree, dto: NodeDto,
                                         kids: seq<Tree>)
    requires WellFormedForest([head] + rest) && TreeRewritten(head, newHead, hole, dto, kids)
    requires Fits(ForestIds([head] + rest), hole, dto, kids) && Ids(hole) <= Ids(head)
    ensures ForestRewritten([head] + rest, [newHead] + rest, hole, dto, kids)
  {
    ForestCons(head, rest);
    ForestCons(newHead, rest);
    PatchedBeside(Flatten(head), FlattenForest(rest), ForestIds(hole.kids), FlattenForest(kids), hole.Id(),
                  Tree(dto, kids).Project());
  }

  lemma {:induction false} RestRewritten(head: Tree, rest: seq<Tree>, newRest: seq<Tree>, hole: Tree, dto: NodeDto,
                                         kids: seq<Tree>)
    requires WellFormedForest([head] + rest) && ForestRewritten(rest, newRest, hole, dto, kids)
    requires Fits(ForestIds([head] + rest), hole, dto, kids) && Ids(hole) <= ForestIds(rest)
    ensures ForestRewritten([head] + rest, [head] + newRest, hole, dto, kids)
  {
    ForestCons(head, rest);
    ForestCons(head, newRest);
    PatchedBeside(FlattenForest(rest), Flatten(head), ForestIds(hole.kids), FlattenForest(kids), hole.Id(),
                  Tree(dto, kids).Project());
  }

  /** Replacing the children of one node touches that node, drops the old descendants and adds the new ones. */
  lemma {:induction false} ReplaceFlattens(t: Tree, p: NodeId, dto: NodeDto, kids: seq<Tree>)
    requires WellFormed(t) && p in Ids(t) && Fits(Ids(t), Find(t, p), dto, kids)
    ensures TreeRewritten(t, Replace(t, p, dto, kids), Find(t, p), dto, kids)
    decreases t, 0
  {
    var gone, added, node := ForestIds(Find(t, p).kids), FlattenForest(kids), Tree(dto, kids).Project();
    if t.Id() == p {
      assert FlattenForest(t.kids) - gone == map[];
    } else {
      assert Ids(Find(t, p)) <= ForestIds(t.kids);
      ReplaceInForestFlattens(t.kids, p, dto, kids);
      assert RootIds(Replace(t, p, dto, kids).kids) == RootIds(t.kids);
      PatchedUnder(FlattenForest(t.kids), gone, added, p, node, t.Id(), t.Project());
    }
  }

  lemma {:induction false} ReplaceInForestFlattens(forest: seq<Tree>, p: NodeId, dto: NodeDto, kids: seq<Tree>)
    requires WellFormedForest(forest) && p in ForestIds(forest)
    requires Fits(ForestIds(forest), FindInForest(forest, p), dto, kids)
    ensures ForestRewritten(forest, ReplaceInForest(forest, p, dto, kids), FindInForest(forest, p), dto, kids)
    decreases forest, 0
  {
    var head, rest := forest[0], forest[1..];
    assert forest == [head] + rest;
    if p in Ids(head) {
      ReplaceFlattens(head, p, dto, kids);
      ReplaceInForestMisses(rest, p, dto, kids);
      HeadRewritten(head, rest, Replace(head, p, dto, kids), Find(head, p), dto, kids);
    } else {
      ReplaceMisses(head, p, dto, kids);
      ReplaceInForestFlattens(rest, p, dto, kids);
      RestRewritten(head, rest, ReplaceInForest(rest, p, dto, kids), FindInForest(rest, p), dto, kids);
    }
  }

  lemma {:induction false} ForestCons(head: Tree, rest: seq<Tree>)
    ensures RootIds([head] + rest) == [head.Id()] + RootIds(rest)
    ensures ForestIds([head] + rest) == Ids(head) + ForestIds(rest)
    ensures FlattenForest([head] + rest) == FlattenForest(rest) + Flatten(head)
    ensures WellFormedForest([head] + rest)
            <==> WellFormed(head) && WellFormedForest(rest) && Ids(head) !! ForestIds(rest)
  {
    assert ([head] + rest)[1..] == rest;
  }
}
