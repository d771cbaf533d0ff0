/** Lexical scopes of user contexts, and the cache in front of them. */
module UserContexts {
  import opened UiTypes
  import opened Text

  datatype ValueType =
    | TriggerType | IntType | FloatType | StrType | FileType | EnumType
    | BoolType | CssValueType | Vec2Type | Vec3Type | ColorType | ReferenceType

  datatype EntryKind = ScalarEntry | MultiplexListEntry

  datatype ListItem = ListItem(param: NodeId, itemId: string, index: u32)

  datatype MultiplexList = MultiplexList(
    multiplex: NodeId,
    list: NodeId,
    axisId: string,
    indexLinkSymbol: string,
    index0LinkSymbol: string,
    listLinkSymbol: string,
    valueType: ValueType,
    items: seq<ListItem>)

  datatype Entry = Entry(
    symbol: string,
    param: NodeId,
    valueType: ValueType,
    kind: EntryKind,
    multiplex: Option<MultiplexList>)

  datatype ContextScope = ContextScope(owner: NodeId, generation: u64, entries: map<string, Entry>)

  type Scopes = map<NodeId, ContextScope>

  /** The parent link of every node that has one. */
  type Parents = map<NodeId, NodeId>

  datatype Lookup =
    | Resolved(
        symbol: string,
        entryParam: NodeId,
        valueType: ValueType,
        kind: EntryKind,
        multiplex: Option<MultiplexList>,
        scopeOwner: NodeId,
        lexicalDepth: u32)
    | TypeMismatch(
        symbol: string,
        expected: ValueType,
        found: ValueType,
        entryParam: NodeId,
        scopeOwner: NodeId,
        lexicalDepth: u32)
    | Missing(symbol: string)

  /** An entry that the UI offers for a consumer. */
  datatype Candidate = Candidate(
    symbol: string,
    valueType: ValueType,
    kind: EntryKind,
    multiplex: Option<MultiplexList>,
    scopeOwner: NodeId,
    lexicalDepth: u32,
    entryParam: NodeId,
    compatible: bool,
    shadowed: bool)

  datatype UpsertError = EmptySymbol | UnknownOwner(owner: NodeId)

  datatype Upserted = Upserted(changed: bool) | Refused(error: UpsertError)

  // ---------------------------------------------------------------------
  // Lookup without a cache
  // ---------------------------------------------------------------------

  function Ancestor(parents: Parents, node: NodeId, steps: nat): Option<NodeId> {
    if steps == 0 then Some(node) else
    match Ancestor(parents, node, steps - 1)
    case Some(below) => if below in parents then Some(parents[below]) else None
    case None => None
  }

  predicate DeclaredBy(scopes: Scopes, node: Option<NodeId>, symbol: string) {
    node.Some? && node.value in scopes && symbol in scopes[node.value].entries
  }

  /** The ancestor `steps` above the consumer declares the symbol. */
  predicate Declares(scopes: Scopes, parents: Parents, consumer: NodeId, symbol: string, steps: nat) {
    DeclaredBy(scopes, Ancestor(parents, consumer, steps), symbol)
  }

  /** ... and none below it does. */
  ghost predicate Nearest(scopes: Scopes, parents: Parents, consumer: NodeId, symbol: string, steps: nat) {
    && Declares(scopes, parents, consumer, symbol, steps)
    && forall fewer: nat | fewer < steps :: !Declares(scopes, parents, consumer, symbol, fewer)
  }

  function AsDepth(steps: nat): u32 {
    if steps < 0x1_0000_0000 then steps else 0xFFFF_FFFF
  }

  function Found(owner: NodeId, entry: Entry, symbol: string, expected: Option<ValueType>, steps: nat): Lookup {
    if expected.Some? && expected.value != entry.valueType then
      TypeMismatch(symbol, expected.value, entry.valueType, entry.param, owner, AsDepth(steps))
    else
      Resolved(symbol, entry.param, entry.valueType, entry.kind, entry.multiplex, owner, AsDepth(steps))
  }

  /** `answer` is the entry of the nearest declaring ancestor, or says that there is none. */
  ghost predicate IsLookup(scopes: Scopes, parents: Parents, consumer: NodeId, symbol: string,
                           expected: Option<ValueType>, answer: Lookup) {
    && (forall steps: nat | Nearest(scopes, parents, consumer, symbol, steps) ::
          var node := Ancestor(parents, consumer, steps).value;
          answer == Found(node, scopes[node].entries[symbol], symbol, expected, steps))
    && ((forall steps: nat :: !Declares(scopes, parents, consumer, symbol, steps)) ==> answer == Missing(symbol))
  }

  lemma {:induction false} SomeNearest(scopes: Scopes, parents: Parents, consumer: NodeId, symbol: string, steps: nat)
    requires Declares(scopes, parents, consumer, symbol, steps)
    ensures exists nearest: nat :: nearest <= steps && Nearest(scopes, parents, consumer, symbol, nearest)
    decreases steps
  {
    if fewer: nat :| fewer < steps && Declares(scopes, parents, consumer, symbol, fewer) {
      SomeNearest(scopes, parents, consumer, symbol, fewer);
    } else {
      assert Nearest(scopes, parents, consumer, symbol, steps);
    }
  }

  /** There is exactly one lookup, whatever the graph. */
  lemma {:induction false} LookupIsUnique(scopes: Scopes, parents: Parents, consumer: NodeId, symbol: string,
                                          expected: Option<ValueType>, a: Lookup, b: Lookup)
    requires IsLookup(scopes, parents, consumer, symbol, expected, a)
    requires IsLookup(scopes, parents, consumer, symbol, expected, b)
    ensures a == b
  {
    if steps: nat :| Declares(scopes, parents, consumer, symbol, steps) {
      SomeNearest(scopes, parents, consumer, symbol, steps);
      var nearest: nat :| Nearest(scopes, parents, consumer, symbol, nearest);
      var node := Ancestor(parents, consumer, nearest).value;
      assert a == Found(node, scopes[node].entries[symbol], symbol, expected, nearest);
    }
  }

  lemma {:induction false} NearestAnswers(scopes: Scopes, parents: Parents, consumer: NodeId, symbol: string,
                                          expected: Option<ValueType>, steps: nat)
    requires Nearest(scopes, parents, consumer, symbol, steps)
    ensures var node := Ancestor(parents, consumer, steps).value;
            IsLookup(scopes, parents, consumer, symbol, expected,
                     Found(node, scopes[node].entries[symbol], symbol, expected, steps))
  {
  }

  lemma {:induction false} NothingAboveTheTop(scopes: Scopes, parents: Parents, consumer: NodeId, symbol: string,
                                              top: nat, steps: nat)
    requires Ancestor(parents, consumer, top).None? && top <= steps
    ensures !Declares(scopes, parents, consumer, symbol, steps)
    ensures Ancestor(parents, consumer, steps).None?
    decreases steps
  {
    if top < steps {
      NothingAboveTheTop(scopes, parents, consumer, symbol, top, steps - 1);
    }
  }

  lemma {:induction false} NobodyAnswers(scopes: Scopes, parents: Parents, consumer: NodeId, symbol: string,
                                         expected: Option<ValueType>, top: nat)
    requires Ancestor(parents, consumer, top).None?
    requires forall steps: nat | steps < top :: !Declares(scopes, parents, consumer, symbol, steps)
    ensures IsLookup(scopes, parents, consumer, symbol, expected, Missing(symbol))
  {
    forall steps: nat
      ensures !Declares(scopes, parents, consumer, symbol, steps)
    {
      if top <= steps {
        NothingAboveTheTop(scopes, parents, consumer, symbol, top, steps);
      }
    }
  }

  /** Climbing from the consumer stops: at a declaration, or above the last ancestor. */
  ghost predicate ClimbEnds(scopes: Scopes, parents: Parents, consumer: NodeId, symbol: string) {
    exists steps: nat :: EndsAt(scopes, parents, consumer, symbol, steps)
  }

  ghost predicate EndsAt(scopes: Scopes, parents: Parents, consumer: NodeId, symbol: string, steps: nat) {
    Ancestor(parents, consumer, steps).None? || Declares(scopes, parents, consumer, symbol, steps)
  }

  // ---------------------------------------------------------------------
  // Candidates
  // ---------------------------------------------------------------------

  /** Where a candidate comes from: the entry under `key` of the ancestor `steps` above the consumer. */
  datatype Origin = Origin(steps: nat, key: string)

  function EntryAt(scopes: Scopes, parents: Parents, consumer: NodeId, o: Origin): Entry
    requires Declares(scopes, parents, consumer, o.key, o.steps)
  {
    scopes[Ancestor(parents, consumer, o.steps).value].entries[o.key]
  }

  predicate Shows(c: Candidate, owner: NodeId, entry: Entry, steps: nat, expected: Option<ValueType>) {
    && c.symbol == entry.symbol && c.valueType == entry.valueType
    && c.kind == entry.kind && c.multiplex == entry.multiplex
    && c.entryParam == entry.param && c.scopeOwner == owner && c.lexicalDepth == AsDepth(steps)
    && (c.compatible <==> expected.None? || expected.value == entry.valueType)
  }

  ghost predicate ShowsOrigin(scopes: Scopes, parents: Parents, consumer: NodeId, expected: Option<ValueType>,
                              c: Candidate, o: Origin) {
    && Declares(scopes, parents, consumer, o.key, o.steps)
    && Shows(c, Ancestor(parents, consumer, o.steps).value, EntryAt(scopes, parents, consumer, o), o.steps, expected)
  }

  predicate SymbolBefore(out: seq<Candidate>, i: nat, symbol: string)
    requires i <= |out|
  {
    exists j :: 0 <= j < i && out[j].symbol == symbol
  }

  /** Every candidate shows a visible entry, nearer ones first and those of one scope in the order of their symbols,
      shadowed exactly if its symbol came before. */
  ghost predicate Lists(scopes: Scopes, parents: Parents, consumer: NodeId, expected: Option<ValueType>,
                        out: seq<Candidate>, origins: seq<Origin>) {
    && |out| == |origins|
    && (forall i | 0 <= i < |out| :: ShowsOrigin(scopes, parents, consumer, expected, out[i], origins[i]))
    && (forall i | 0 <= i < |out| :: out[i].shadowed <==> SymbolBefore(out, i, out[i].symbol))
    && (forall i, j | 0 <= i < j < |out| :: origins[i].steps <= origins[j].steps && origins[i] != origins[j])
    && (forall i, j | 0 <= i < j < |out| && origins[i].steps == origins[j].steps ::
          !Before(out[j].symbol, out[i].symbol))
  }

  /** Every visible entry has a candidate. */
  ghost predicate ListsAll(scopes: Scopes, parents: Parents, consumer: NodeId, origins: seq<Origin>) {
    forall o: Origin | Declares(scopes, parents, consumer, o.key, o.steps) :: o in origins
  }

  /** `out` lists every visible entry once. */
  ghost predicate Offers(scopes: Scopes, parents: Parents, consumer: NodeId, expected: Option<ValueType>,
                         out: seq<Candidate>) {
    exists origins ::
      Lists(scopes, parents, consumer, expected, out, origins) && ListsAll(scopes, parents, consumer, origins)
  }

  // ---------------------------------------------------------------------
  // The final order of candidates
  // ---------------------------------------------------------------------

  /** The order candidates are returned in: by depth, symbol and parameter. */
  predicate Precedes(a: Candidate, b: Candidate) {
    || a.lexicalDepth < b.lexicalDepth
    || (a.lexicalDepth == b.lexicalDepth && Before(a.symbol, b.symbol))
    || (a.lexicalDepth == b.lexicalDepth && a.symbol == b.symbol && a.entryParam < b.entryParam)
  }

  predicate Tied(a: Candidate, b: Candidate) {
    a.lexicalDepth == b.lexicalDepth && a.symbol == b.symbol && a.entryParam == b.entryParam
  }

  function InsertSorted(sorted: seq<Candidate>, c: Candidate): (r: seq<Candidate>)
    ensures multiset(r) == multiset(sorted) + multiset{c}
  {
    if sorted == [] || !Precedes(c, sorted[|sorted| - 1]) then sorted + [c] else
    var last := sorted[|sorted| - 1];
    assert sorted == sorted[..|sorted| - 1] + [last];
    InsertSorted(sorted[..|sorted| - 1], c) + [last]
  }

  function SortedCandidates(listed: seq<Candidate>): (r: seq<Candidate>)
    ensures multiset(r) == multiset(listed)
  {
    if listed == [] then [] else
    assert listed == listed[..|listed| - 1] + [listed[|listed| - 1]];
    InsertSorted(SortedCandidates(listed[..|listed| - 1]), listed[|listed| - 1])
  }

  ghost predicate IsSorted(out: seq<Candidate>) {
    forall i, j | 0 <= i < j < |out| :: !Precedes(out[j], out[i])
  }

  /** The candidates that are tied with one, in their order. */
  function TiedWith(out: seq<Candidate>, c: Candidate): seq<Candidate> {
    if out == [] then []
    else TiedWith(out[..|out| - 1], c) + (if Tied(out[|out| - 1], c) then [out[|out| - 1]] else [])
  }

  lemma {:induction false} PrecedesIsAnOrder(a: Candidate, b: Candidate, c: Candidate)
    ensures Precedes(a, b) || Tied(a, b) || Precedes(b, a)
    ensures !(Precedes(a, b) && Precedes(b, a))
    ensures Precedes(a, b) && !Precedes(c, b) ==> Precedes(a, c)
  {
    BeforeIsTotal(a.symbol, b.symbol);
    BeforeIsTotal(b.symbol, c.symbol);
    BeforeIsTotal(a.symbol, c.symbol);
    if Before(a.symbol, b.symbol) && Before(b.symbol, c.symbol) {
      BeforeIsTransitive(a.symbol, b.symbol, c.symbol);
    }
  }

  lemma {:induction false} TiedDoNotPrecede(a: Candidate, b: Candidate, k: Candidate)
    requires Tied(a, k) && Tied(b, k)
    ensures !Precedes(a, b)
  {
    BeforeIsTotal(a.symbol, a.symbol);
  }

  lemma {:induction false} InsertKeepsOrder(sorted: seq<Candidate>, c: Candidate)
    requires IsSorted(sorted)
    ensures IsSorted(InsertSorted(sorted, c))
    decreases |sorted|
  {
    hide Precedes, Tied;
    if sorted != [] {
      var front, last := sorted[..|sorted| - 1], sorted[|sorted| - 1];
      if Precedes(c, last) {
        InsertKeepsOrder(front, c);
        PrecedesIsAnOrder(c, last, last);
        NoneAfter(front, c, last);
        EndsSorted(InsertSorted(front, c), last);
      } else {
        forall x | x in sorted
          ensures !Precedes(c, x)
        {
          PrecedesIsAnOrder(c, x, last);
        }
        EndsSorted(sorted, c);
      }
    }
  }

  lemma {:induction false} TiedAtEnd(front: seq<Candidate>, last: Candidate, k: Candidate)
    ensures TiedWith(front + [last], k) == TiedWith(front, k) + (if Tied(last, k) then [last] else [])
  {
    assert (front + [last])[..|front + [last]| - 1] == front;
  }

  lemma {:induction false} InsertKeepsTies(sorted: seq<Candidate>, c: Candidate, k: Candidate)
    ensures TiedWith(InsertSorted(sorted, c), k) == TiedWith(sorted, k) + (if Tied(c, k) then [c] else [])
    decreases |sorted|
  {
    hide Precedes, Tied, TiedWith;
    if sorted != [] && Precedes(c, sorted[|sorted| - 1]) {
      var front, last := sorted[..|sorted| - 1], sorted[|sorted| - 1];
      assert sorted == front + [last];
      InsertKeepsTies(front, c, k);
      TiedAtEnd(InsertSorted(front, c), last, k);
      TiedAtEnd(front, last, k);
      if Tied(c, k) && Tied(last, k) {
        TiedDoNotPrecede(c, last, k);
      }
    } else {
      TiedAtEnd(sorted, c, k);
    }
  }

  lemma {:induction false} EndsSorted(front: seq<Candidate>, last: Candidate)
    requires IsSorted(front) && forall x | x in front :: !Precedes(last, x)
    ensures IsSorted(front + [last])
  {
  }

  lemma {:induction false} NoneAfter(front: seq<Candidate>, c: Candidate, last: Candidate)
    requires (forall x | x in front :: !Precedes(last, x)) && !Precedes(last, c)
    ensures forall x | x in InsertSorted(front, c) :: !Precedes(last, x)
  {
    forall x | x in InsertSorted(front, c)
      ensures !Precedes(last, x)
    {
      assert x in multiset(front) + multiset{c};
    }
  }

  /** Nearer candidates come first, those of one depth in the order of their
      symbols, and those of one symbol there in the order of their parameters. */
  ghost predicate InReturnedOrder(a: Candidate, b: Candidate) {
    && a.lexicalDepth <= b.lexicalDepth
    && (a.lexicalDepth == b.lexicalDepth ==>
          && !Before(b.symbol, a.symbol)
          && (a.symbol == b.symbol ==> a.entryParam <= b.entryParam))
  }

  lemma {:induction false} SortedIsInOrder(out: seq<Candidate>, i: nat, j: nat)
    requires IsSorted(out) && i < j < |out|
    ensures InReturnedOrder(out[i], out[j])
  {
    assert !Precedes(out[j], out[i]);
    BeforeIsTotal(out[i].symbol, out[j].symbol);
  }

  /** Candidates are returned in order, the same ones, and tied ones as they were listed. */
  lemma {:induction false} CandidatesAreSorted(listed: seq<Candidate>, k: Candidate)
    ensures IsSorted(SortedCandidates(listed))
    ensures var out := SortedCandidates(listed);
            forall i, j | 0 <= i < j < |out| :: InReturnedOrder(out[i], out[j])
    ensures multiset(SortedCandidates(listed)) == multiset(listed)
    ensures TiedWith(SortedCandidates(listed), k) == TiedWith(listed, k)
    decreases |listed|
  {
    if listed != [] {
      var front, last := listed[..|listed| - 1], listed[|listed| - 1];
      CandidatesAreSorted(front, k);
      InsertKeepsOrder(SortedCandidates(front), last);
      InsertKeepsTies(SortedCandidates(front), last, k);
    }
    var out := SortedCandidates(listed);
    forall i, j | 0 <= i < j < |out|
      ensures InReturnedOrder(out[i], out[j])
    {
      SortedIsInOrder(out, i, j);
    }
  }

  /** How entries come to be stored: a scalar under the symbol it shows, a list under that symbol or under its own link
      symbol. */
  ghost predicate KeyFits(key: string, entry: Entry) {
    && entry.symbol != ""
    && Trimmed(entry.symbol)
    && match entry.kind
       case ScalarEntry => entry.multiplex.None? && key == entry.symbol
       case MultiplexListEntry =>
         && entry.multiplex.Some?
         && entry.param == entry.multiplex.value.list
         && entry.valueType == entry.multiplex.value.valueType
         && (key == entry.symbol || key == entry.multiplex.value.listLinkSymbol)
  }

  ghost predicate WellKept(scopes: Scopes) {
    forall owner | owner in scopes ::
      && scopes[owner].owner == owner
      && forall key | key in scopes[owner].entries :: KeyFits(key, scopes[owner].entries[key])
  }

  // ---------------------------------------------------------------------
  // Pruning
  // ---------------------------------------------------------------------

  predicate Live(entry: Entry, paramIsValid: NodeId -> bool) {
    && paramIsValid(entry.param)
    && (entry.multiplex.Some? ==>
          forall i | 0 <= i < |entry.multiplex.value.items| :: paramIsValid(entry.multiplex.value.items[i].param))
  }

  function LiveEntries(entries: map<string, Entry>, paramIsValid: NodeId -> bool): map<string, Entry> {
    map key | key in entries && Live(entries[key], paramIsValid) :: entries[key]
  }

  function PrunedScope(scope: ContextScope, paramIsValid: NodeId -> bool): ContextScope {
    var live := LiveEntries(scope.entries, paramIsValid);
    if live == scope.entries then scope else scope.(entries := live, generation := Bumped(scope.generation))
  }

  function Pruned(scopes: Scopes, ownerExists: NodeId -> bool, paramIsValid: NodeId -> bool): Scopes {
    map owner | owner in scopes && ownerExists(owner) :: PrunedScope(scopes[owner], paramIsValid)
  }

  /** Exactly the entries of live owners are left, unchanged, that lead to
      valid parameters only, those of a list and all its items included. */
  lemma {:induction false} PrunedExactly(scopes: Scopes, ownerExists: NodeId -> bool, paramIsValid: NodeId -> bool,
                                         owner: NodeId, key: string)
    ensures var pruned := Pruned(scopes, ownerExists, paramIsValid);
            && (owner in pruned <==> owner in scopes && ownerExists(owner))
            && (owner in pruned ==>
                  && pruned[owner].owner == scopes[owner].owner
                  && var entries := scopes[owner].entries;
                     && (key in pruned[owner].entries
                         <==> && key in entries && paramIsValid(entries[key].param)
                              && (entries[key].multiplex.Some? ==>
                                    forall item | item in entries[key].multiplex.value.items ::
                                      paramIsValid(item.param)))
                     && (key in pruned[owner].entries ==> pruned[owner].entries[key] == entries[key]))
  {
  }

  lemma {:induction false} PruningKeepsFit(scopes: Scopes, ownerExists: NodeId -> bool, paramIsValid: NodeId -> bool)
    requires WellKept(scopes)
    ensures WellKept(Pruned(scopes, ownerExists, paramIsValid))
  {
    hide KeyFits;
  }

  lemma {:induction false} SmallerIsDifferent(entries: map<string, Entry>, paramIsValid: NodeId -> bool)
    ensures var live := LiveEntries(entries, paramIsValid);
            live != entries <==> |live| != |entries|
  {
    var live := LiveEntries(entries, paramIsValid);
    if live != entries {
      assert exists key :: key in entries && key !in live;
      assert live.Keys < entries.Keys;
      ProperSubsetIsSmaller(live.Keys, entries.Keys);
      assert |live| == |live.Keys| && |entries| == |entries.Keys|;
    }
  }

  lemma {:induction false} ProperSubsetIsSmaller<T>(a: set<T>, b: set<T>)
    requires a < b
    ensures |a| < |b|
  {
    var x :| x in b && x !in a;
    assert a <= b - {x};
    SubsetIsNoLarger(a, b - {x});
  }

  lemma {:induction false} SubsetIsNoLarger<T>(a: set<T>, b: set<T>)
    requires a <= b
    ensures |a| <= |b|
    decreases a
  {
    if x :| x in a {
      SubsetIsNoLarger(a - {x}, b - {x});
    }
  }

  /** After pruning, no lookup answers with a dead owner's scope or an invalid parameter. */
  lemma {:induction false} PrunedAnswersAreLive(scopes: Scopes, ownerExists: NodeId -> bool,
                                                paramIsValid: NodeId -> bool, parents: Parents, consumer: NodeId,
                                                symbol: string, expected: Option<ValueType>, answer: Lookup)
    requires IsLookup(Pruned(scopes, ownerExists, paramIsValid), parents, consumer, symbol, expected, answer)
    requires !answer.Missing?
    ensures ownerExists(answer.scopeOwner) && paramIsValid(answer.entryParam)
    ensures answer.scopeOwner in scopes && symbol in scopes[answer.scopeOwner].entries
    ensures scopes[answer.scopeOwner].entries[symbol].param == answer.entryParam
  {
    var pruned := Pruned(scopes, ownerExists, paramIsValid);
    var steps: nat :| Declares(pruned, parents, consumer, symbol, steps);
    SomeNearest(pruned, parents, consumer, symbol, steps);
    var nearest: nat :| Nearest(pruned, parents, consumer, symbol, nearest);
    var node := Ancestor(parents, consumer, nearest).value;
    assert answer == Found(node, pruned[node].entries[symbol], symbol, expected, nearest);
  }

  /** Two registries that differ only in entries under `key`. */
  ghost predicate SameBut(before: Scopes, after: Scopes, key: string) {
    && before.Keys == after.Keys
    && forall owner, symbol | owner in before && symbol != key ::
         && (symbol in before[owner].entries <==> symbol in after[owner].entries)
         && (symbol in before[owner].entries ==> before[owner].entries[symbol] == after[owner].entries[symbol])
  }

  /** An entry stored under one key leaves the lookups of every other symbol alone. */
  lemma {:induction false} OtherSymbolsKeepTheirMeaning(before: Scopes, after: Scopes, key: string, parents: Parents,
                                                        consumer: NodeId, symbol: string, expected: Option<ValueType>,
                                                        answer: Lookup)
    requires SameBut(before, after, key) && symbol != key
    ensures IsLookup(before, parents, consumer, symbol, expected, answer) <==>
            IsLookup(after, parents, consumer, symbol, expected, answer)
  {
    forall steps: nat
      ensures Declares(before, parents, consumer, symbol, steps) <==> Declares(after, parents, consumer, symbol, steps)
    {
    }
    assert forall steps: nat :: Nearest(before, parents, consumer, symbol, steps) <==>
                                Nearest(after, parents, consumer, symbol, steps);
  }

  lemma {:induction false} UpsertsOneKey(before: Scopes, owner: NodeId, key: string, entry: Entry, r: Upserted,
                                         after: Scopes)
    requires Upserts(before, owner, key, entry, r, after)
    ensures SameBut(before, after, key)
    ensures r == Upserted(true) <==> before != after
  {
  }

  // ---------------------------------------------------------------------
  // The registry
  // ---------------------------------------------------------------------

  datatype CacheKey = CacheKey(consumer: NodeId, symbol: string, expected: Option<ValueType>)

  datatype CacheValue = CacheValue(lookup: Lookup, graphGeneration: u64, schemaGeneration: u64)

  class UserContextRegistry {
    var scopesByOwner: Scopes
    var cache: map<CacheKey, CacheValue>
    var graphGeneration: u64
    var schemaGeneration: u64
    /** The graph as of the last announcement. */
    ghost var graph: Parents

    /** Whatever the cache holds is what a lookup without it would find now. */
    ghost predicate Valid()
      reads this
    {
      && WellKept(scopesByOwner)
      && (forall key | key in cache ::
            && cache[key].graphGeneration == graphGeneration
            && cache[key].schemaGeneration == schemaGeneration
            && IsLookup(scopesByOwner, graph, key.consumer, key.symbol, key.expected, cache[key].lookup))
    }

    constructor (ghost now: Parents)
      ensures Valid() && scopesByOwner == map[] && cache == map[] && graph == now
      ensures graphGeneration == 0 && schemaGeneration == 0
    {
      scopesByOwner, cache, graphGeneration, schemaGeneration, graph := map[], map[], 0, 0, now;
    }

    method BumpSchemaGeneration()
      modifies this`schemaGeneration, this`cache
      ensures schemaGeneration == Bumped(old(schemaGeneration)) && cache == map[]
    {
      schemaGeneration := Bumped(schemaGeneration);
      cache := map[];
    }

    method EnsureScope(owner: NodeId) returns (created: bool)
      requires Valid()
      modifies this
      ensures Valid() && graph == old(graph) && graphGeneration == old(graphGeneration)
      ensures created <==> owner !in old(scopesByOwner)
      ensures scopesByOwner == if created then old(scopesByOwner)[owner := ContextScope(owner, 0, map[])]
                               else old(scopesByOwner)
      ensures !created ==> cache == old(cache) && schemaGeneration == old(schemaGeneration)
    {
      if owner in scopesByOwner {
        return false;
      }
      scopesByOwner := scopesByOwner[owner := ContextScope(owner, 0, map[])];
      BumpSchemaGeneration();
      return true;
    }

    method RemoveScope(owner: NodeId) returns (removed: bool)
      requires Valid()
      modifies this
      ensures Valid() && graph == old(graph) && graphGeneration == old(graphGeneration)
      ensures removed <==> owner in old(scopesByOwner)
      ensures scopesByOwner == old(scopesByOwner) - {owner}
      ensures !removed ==> cache == old(cache) && schemaGeneration == old(schemaGeneration)
    {
      if owner !in scopesByOwner {
        return false;
      }
      scopesByOwner := scopesByOwner - {owner};
      BumpSchemaGeneration();
      return true;
    }

    method UpsertEntry(owner: NodeId, symbol: string, param: NodeId, valueType: ValueType) returns (r: Upserted)
      requires Valid()
      modifies this
      ensures Valid() && graph == old(graph) && graphGeneration == old(graphGeneration)
      ensures Upserts(old(scopesByOwner), owner, Trim(symbol), Entry(Trim(symbol), param, valueType, ScalarEntry, None),
                      r, scopesByOwner)
    {
      var name := Trim(symbol);
      r := UpsertEntryKindWithKey(owner, name, name, param, valueType, ScalarEntry, None);
    }

    method UpsertMultiplexListEntry(owner: NodeId, symbol: string, list: MultiplexList) returns (r: Upserted)
      requires Valid()
      modifies this
      ensures Valid() && graph == old(graph) && graphGeneration == old(graphGeneration)
      ensures Upserts(old(scopesByOwner), owner, Trim(symbol),
                      Entry(Trim(symbol), list.list, list.valueType, MultiplexListEntry, Some(list)), r, scopesByOwner)
    {
      var name := Trim(symbol);
      r := UpsertEntryKindWithKey(owner, name, name, list.list, list.valueType, MultiplexListEntry, Some(list));
    }

    /** One more list under a symbol already taken: stored under its
        link symbol, so that the plain symbol keeps its meaning. */
    method UpsertAdditionalMultiplexListEntry(owner: NodeId, symbol: string, list: MultiplexList) returns (r: Upserted)
      requires Valid()
      modifies this
      ensures Valid() && graph == old(graph) && graphGeneration == old(graphGeneration)
      ensures Upserts(old(scopesByOwner), owner, list.listLinkSymbol,
                      Entry(Trim(symbol), list.list, list.valueType, MultiplexListEntry, Some(list)), r, scopesByOwner)
    {
      r := UpsertEntryKindWithKey(
        owner, list.listLinkSymbol, Trim(symbol), list.list, list.valueType, MultiplexListEntry, Some(list));
    }

    method UpsertEntryKindWithKey(owner: NodeId, key: string, symbol: string, param: NodeId, valueType: ValueType,
                                  kind: EntryKind, multiplex: Option<MultiplexList>) returns (r: Upserted)
      requires Valid() && (symbol != "" ==> KeyFits(key, Entry(symbol, param, valueType, kind, multiplex)))
      modifies this
      ensures Valid() && graph == old(graph) && graphGeneration == old(graphGeneration)
      ensures Upserts(old(scopesByOwner), owner, key, Entry(symbol, param, valueType, kind, multiplex), r,
                      scopesByOwner)
      ensures r != Upserted(true) ==> cache == old(cache) && schemaGeneration == old(schemaGeneration)
    {
      if symbol == "" {
        return Refused(EmptySymbol);
      }
      if owner !in scopesByOwner {
        return Refused(UnknownOwner(owner));
      }
      var scope := scopesByOwner[owner];
      var next := Entry(symbol, param, valueType, kind, multiplex);
      if key in scope.entries && scope.entries[key] == next {
        return Upserted(false);
      }
      scope := scope.(entries := scope.entries[key := next]);
      scope := scope.(generation := Bumped(scope.generation));
      scopesByOwner := scopesByOwner[owner := scope];
      BumpSchemaGeneration();
      return Upserted(true);
    }

    method RemoveEntry(owner: NodeId, symbol: string) returns (removed: bool)
      requires Valid()
      modifies this
      ensures Valid() && graph == old(graph) && graphGeneration == old(graphGeneration)
      ensures removed <==> Trim(symbol) != "" && DeclaredBy(old(scopesByOwner), Some(owner), Trim(symbol))
      ensures !removed ==> scopesByOwner == old(scopesByOwner) && cache == old(cache)
      ensures removed ==> var scope := old(scopesByOwner)[owner];
                          scopesByOwner == old(scopesByOwner)[owner :=
                            ContextScope(owner, Bumped(scope.generation), scope.entries - {Trim(symbol)})]
    {
      hide IsLookup, Trim;
      var name := Trim(symbol);
      if name == "" || owner !in scopesByOwner || name !in scopesByOwner[owner].entries {
        return false;
      }
      var scope := scopesByOwner[owner];
      scope := scope.(entries := scope.entries - {name}, generation := Bumped(scope.generation));
      scopesByOwner := scopesByOwner[owner := scope];
      BumpSchemaGeneration();
      return true;
    }

    /** Drops the scopes of dead owners and the entries of invalid
        parameters, and says whether that changed anything. */
    method Prune(ownerExists: NodeId -> bool, paramIsValid: NodeId -> bool) returns (changed: bool)
      requires Valid()
      modifies this
      ensures Valid() && graph == old(graph) && graphGeneration == old(graphGeneration)
      ensures scopesByOwner == Pruned(old(scopesByOwner), ownerExists, paramIsValid)
      ensures changed <==> scopesByOwner != old(scopesByOwner)
      ensures !changed ==> cache == old(cache) && schemaGeneration == old(schemaGeneration)
    {
      hide IsLookup, LiveEntries, WellKept;
      var before := scopesByOwner;
      changed := false;
      var kept := map owner | owner in scopesByOwner && ownerExists(owner) :: scopesByOwner[owner];
      if kept != scopesByOwner {
        scopesByOwner := kept;
        changed := true;
      }
      var pending := scopesByOwner.Keys;
      while pending != {}
        invariant pending <= scopesByOwner.Keys == kept.Keys
        invariant forall owner | owner in kept ::
                    scopesByOwner[owner] == if owner in pending then before[owner]
                                            else PrunedScope(before[owner], paramIsValid)
        invariant changed <==> scopesByOwner != before
        invariant cache == old(cache) && schemaGeneration == old(schemaGeneration)
        invariant graph == old(graph) && graphGeneration == old(graphGeneration)
      {
        var owner :| owner in pending;
        pending := pending - {owner};
        var scope := scopesByOwner[owner];
        var live := LiveEntries(scope.entries, paramIsValid);
        SmallerIsDifferent(scope.entries, paramIsValid);
        if |live| != |scope.entries| {
          scope := scope.(entries := live, generation := Bumped(scope.generation));
          scopesByOwner := scopesByOwner[owner := scope];
          assert scopesByOwner[owner] != before[owner];
          changed := true;
        }
      }
      PruningKeepsFit(before, ownerExists, paramIsValid);
      assert scopesByOwner == Pruned(before, ownerExists, paramIsValid);
      if changed {
        BumpSchemaGeneration();
      }
    }

    /** Announces that the graph is now `now`. */
    method MarkGraphChanged(ghost now: Parents)
      requires Valid()
      modifies this`graphGeneration, this`cache, this`graph
      ensures Valid() && graph == now
      ensures graphGeneration == Bumped(old(graphGeneration)) && cache == map[]
    {
      graphGeneration := Bumped(graphGeneration);
      cache := map[];
      graph := now;
    }

    /** With the cache or without it, the answer is the nearest ancestor's. */
    method ResolveSymbol(consumer: NodeId, symbol: string, expected: Option<ValueType>, parents: Parents)
      returns (lookup: Lookup)
      requires Valid() && parents == graph
      requires ClimbEnds(scopesByOwner, parents, consumer, Trim(symbol))
      modifies this`cache
      ensures Valid()
      ensures Trim(symbol) == "" ==> lookup == Missing("") && cache == old(cache)
      ensures Trim(symbol) != "" ==> IsLookup(scopesByOwner, graph, consumer, Trim(symbol), expected, lookup)
    {
      var name := Trim(symbol);
      if name == "" {
        return Missing("");
      }
      var key := CacheKey(consumer, name, expected);
      if key in cache {
        var cached := cache[key];
        if cached.graphGeneration == graphGeneration && cached.schemaGeneration == schemaGeneration {
          return cached.lookup;
        }
      }
      lookup := Climb(consumer, name, expected, parents);
      cache := cache[key := CacheValue(lookup, graphGeneration, schemaGeneration)];
    }

    method Climb(consumer: NodeId, symbol: string, expected: Option<ValueType>, parents: Parents)
      returns (lookup: Lookup)
      requires Valid() && ClimbEnds(scopesByOwner, parents, consumer, symbol)
      ensures IsLookup(scopesByOwner, parents, consumer, symbol, expected, lookup)
    {
      var depth: u32 := 0;
      var cursor := Some(consumer);
      ghost var steps: nat := 0;
      ghost var end: nat :| EndsAt(scopesByOwner, parents, consumer, symbol, end);
      while cursor.Some?
        invariant cursor == Ancestor(parents, consumer, steps) && depth == AsDepth(steps) && steps <= end
        invariant forall fewer: nat | fewer < steps :: !Declares(scopesByOwner, parents, consumer, symbol, fewer)
        decreases end - steps
      {
        var node := cursor.value;
        if node in scopesByOwner && symbol in scopesByOwner[node].entries {
          var entry := scopesByOwner[node].entries[symbol];
          NearestAnswers(scopesByOwner, parents, consumer, symbol, expected, steps);
          if expected.Some? && expected.value != entry.valueType {
            return TypeMismatch(symbol, expected.value, entry.valueType, entry.param, scopesByOwner[node].owner, depth);
          }
          return Resolved(symbol, entry.param, entry.valueType, entry.kind, entry.multiplex, scopesByOwner[node].owner,
                          depth);
        }
        cursor := if node in parents then Some(parents[node]) else None;
        depth := SaturatingNext(depth);
        steps := steps + 1;
      }
      NobodyAnswers(scopesByOwner, parents, consumer, symbol, expected, steps);
      return Missing(symbol);
    }

    /** Every visible entry once, marked as shadowed if its symbol was listed before; then sorted. */
    method CollectCandidates(consumer: NodeId, expected: Option<ValueType>, parents: Parents)
      returns (out: seq<Candidate>)
      requires Valid() && exists top: nat :: Ancestor(parents, consumer, top).None?
      ensures exists listed ::
                Offers(scopesByOwner, parents, consumer, expected, listed) && out == SortedCandidates(listed)
    {
      out := [];
      ghost var origins: seq<Origin> := [];
      var seen: set<string> := {};
      var depth: u32 := 0;
      var cursor := Some(consumer);
      ghost var steps: nat := 0;
      ghost var end: nat :| Ancestor(parents, consumer, end).None?;
      while cursor.Some?
        invariant cursor == Ancestor(parents, consumer, steps) && depth == AsDepth(steps) && steps <= end
        invariant Lists(scopesByOwner, parents, consumer, expected, out, origins)
        invariant forall o | o in origins :: o.steps < steps
        invariant forall o: Origin | o.steps < steps && Declares(scopesByOwner, parents, consumer, o.key, o.steps) ::
                    o in origins
        invariant forall symbol :: symbol in seen <==> SymbolBefore(out, |out|, symbol)
        decreases end - steps
      {
        if cursor.value in scopesByOwner {
          out, origins, seen := CollectScope(consumer, expected, parents, cursor.value, depth, steps, out, origins,
                                             seen);
        }
        cursor := if cursor.value in parents then Some(parents[cursor.value]) else None;
        depth := SaturatingNext(depth);
        steps := steps + 1;
      }
      forall o: Origin | Declares(scopesByOwner, parents, consumer, o.key, o.steps)
        ensures o in origins
      {
        if steps <= o.steps {
          NothingAboveTheTop(scopesByOwner, parents, consumer, o.key, steps, o.steps);
        }
      }
      assert Offers(scopesByOwner, parents, consumer, expected, out);
      out := SortedCandidates(out);
    }

    method CollectScope(consumer: NodeId, expected: Option<ValueType>, parents: Parents, node: NodeId, depth: u32,
                        ghost steps: nat, sofar: seq<Candidate>, ghost before: seq<Origin>, shown: set<string>)
      returns (out: seq<Candidate>, ghost origins: seq<Origin>, seen: set<string>)
      requires Valid() && node in scopesByOwner
      requires Ancestor(parents, consumer, steps) == Some(node) && depth == AsDepth(steps)
      requires Lists(scopesByOwner, parents, consumer, expected, sofar, before)
      requires forall o | o in before :: o.steps < steps
      requires forall symbol :: symbol in shown <==> SymbolBefore(sofar, |sofar|, symbol)
      ensures Lists(scopesByOwner, parents, consumer, expected, out, origins)
      ensures forall o :: o in origins <==> o in before || (o.steps == steps && o.key in scopesByOwner[node].entries)
      ensures forall symbol :: symbol in seen <==> SymbolBefore(out, |out|, symbol)
    {
      hide KeyFits, IsLookup, Before, Declares, EntryAt, Ancestor;
      out, origins, seen := sofar, before, shown;
      var scope := scopesByOwner[node];
      var keys := SortBySymbol(scope.entries);
      for index := 0 to |keys|
        invariant Lists(scopesByOwner, parents, consumer, expected, out, origins)
        invariant CollectedUpTo(scope.entries, keys, index, steps, before, out, origins, seen)
      {
        hide CollectedUpTo, Lists;
        var key := keys[index];
        var entry := scope.entries[key];
        var shadowed := entry.symbol in seen;
        var compatible := expected.None? || expected.value == entry.valueType;
        var candidate := Candidate(entry.symbol, entry.valueType, entry.kind, entry.multiplex, scope.owner, depth,
                                   entry.param, compatible, shadowed);
        CollectOneMore(scopesByOwner, parents, consumer, expected, node, keys, index, steps, before, out, origins, seen,
                       candidate);
        out, origins, seen := out + [candidate], origins + [Origin(steps, key)], seen + {entry.symbol};
      }
      assert keys[..|keys|] == keys;
    }
  }

  /** The entries of a scope under the first `index` of its `keys` are
      listed, and none that comes after them in order. */
  ghost predicate CollectedUpTo(entries: map<string, Entry>, keys: seq<string>, index: nat, steps: nat,
                                before: seq<Origin>, out: seq<Candidate>, origins: seq<Origin>, seen: set<string>) {
    && index <= |keys| && SortedBySymbol(entries, keys) && |out| == |origins|
    && (forall o :: o in origins <==> o in before || (o.steps == steps && o.key in keys[..index]))
    && (forall o | o in before :: o.steps < steps)
    && (forall i, k | 0 <= i < |out| && origins[i].steps == steps && index <= k < |keys| ::
          !Before(entries[keys[k]].symbol, out[i].symbol))
    && (forall symbol :: symbol in seen <==> SymbolBefore(out, |out|, symbol))
  }

  lemma {:induction false} CollectOneMore(scopes: Scopes, parents: Parents, consumer: NodeId,
                                          expected: Option<ValueType>, node: NodeId, keys: seq<string>, index: nat,
                                          steps: nat, before: seq<Origin>, out: seq<Candidate>, origins: seq<Origin>,
                                          seen: set<string>, c: Candidate)
    requires Ancestor(parents, consumer, steps) == Some(node) && node in scopes && index < |keys|
    requires forall key | key in keys :: key in scopes[node].entries
    requires Lists(scopes, parents, consumer, expected, out, origins)
    requires CollectedUpTo(scopes[node].entries, keys, index, steps, before, out, origins, seen)
    requires Shows(c, node, scopes[node].entries[keys[index]], steps, expected) && (c.shadowed <==> c.symbol in seen)
    ensures var from := origins + [Origin(steps, keys[index])];
            && Lists(scopes, parents, consumer, expected, out + [c], from)
            && CollectedUpTo(scopes[node].entries, keys, index + 1, steps, before, out + [c], from, seen + {c.symbol})
  {
    hide Before, SymbolBefore;
    var o := Origin(steps, keys[index]);
    assert keys[index] !in keys[..index];
    assert ShowsOrigin(scopes, parents, consumer, expected, c, o);
    hide Ancestor, Lists, ShowsOrigin;
    ListOneMore(scopes, parents, consumer, expected, out, origins, c, o);
    CollectedOneMore(scopes[node].entries, keys, index, steps, before, out, origins, seen, c);
  }

  lemma {:induction false} CollectedOneMore(entries: map<string, Entry>, keys: seq<string>, index: nat, steps: nat,
                                            before: seq<Origin>, out: seq<Candidate>, origins: seq<Origin>,
                                            seen: set<string>, c: Candidate)
    requires index < |keys| && forall key | key in keys :: key in entries
    requires CollectedUpTo(entries, keys, index, steps, before, out, origins, seen)
    requires c.symbol == entries[keys[index]].symbol
    requires forall symbol ::
               SymbolBefore(out + [c], |out| + 1, symbol) <==> SymbolBefore(out, |out|, symbol) || symbol == c.symbol
    ensures CollectedUpTo(entries, keys, index + 1, steps, before, out + [c], origins + [Origin(steps, keys[index])],
                          seen + {c.symbol})
  {
    hide Before, SymbolBefore;
    var from := origins + [Origin(steps, keys[index])];
    assert keys[..index + 1] == keys[..index] + [keys[index]];
    assert forall x :: x in from <==> x in origins || x == Origin(steps, keys[index]);
    forall i, k | 0 <= i < |from| && from[i].steps == steps && index + 1 <= k < |keys|
      ensures !Before(entries[keys[k]].symbol, (out + [c])[i].symbol)
    {
      if i == |out| {
        assert !Before(entries[keys[k]].symbol, entries[keys[index]].symbol);
      }
    }
  }

  /** `key` has a symbol that none of the others comes before. */
  ghost predicate FirstBySymbol(entries: map<string, Entry>, keys: set<string>, key: string) {
    && key in keys && keys <= entries.Keys
    && forall k | k in keys :: !Before(entries[k].symbol, entries[key].symbol)
  }

  ghost predicate SortedBySymbol(entries: map<string, Entry>, keys: seq<string>) {
    && (forall k | k in keys :: k in entries)
    && (forall i, j | 0 <= i < j < |keys| ::
          keys[i] != keys[j] && !Before(entries[keys[j]].symbol, entries[keys[i]].symbol))
  }

  method TakeFirst(entries: map<string, Entry>, keys: set<string>) returns (first: string)
    requires keys != {} && keys <= entries.Keys
    ensures FirstBySymbol(entries, keys, first)
  {
    first :| first in keys;
    var pending := keys - {first};
    BeforeIsTotal(entries[first].symbol, entries[first].symbol);
    while pending != {}
      invariant pending <= keys && FirstBySymbol(entries, keys - pending, first)
    {
      var key :| key in pending;
      ghost var seen := keys - pending;
      pending := pending - {key};
      assert keys - pending == seen + {key};
      BeforeIsTotal(entries[key].symbol, entries[first].symbol);
      if Before(entries[key].symbol, entries[first].symbol) {
        forall k | k in seen
          ensures !Before(entries[k].symbol, entries[key].symbol)
        {
          if Before(entries[k].symbol, entries[key].symbol) {
            BeforeIsTransitive(entries[k].symbol, entries[key].symbol, entries[first].symbol);
          }
        }
        BeforeIsTotal(entries[key].symbol, entries[key].symbol);
        first := key;
      }
    }
    assert keys - pending == keys;
  }

  /** The keys of all entries, in the order of the symbols they show. */
  method SortBySymbol(entries: map<string, Entry>) returns (keys: seq<string>)
    ensures SortedBySymbol(entries, keys)
    ensures forall key :: key in keys <==> key in entries
  {
    keys := [];
    var pending := entries.Keys;
    while pending != {}
      invariant pending <= entries.Keys && SortedBySymbol(entries, keys)
      invariant forall key :: key in keys <==> key in entries && key !in pending
      invariant forall i, k | 0 <= i < |keys| && k in pending :: !Before(entries[k].symbol, entries[keys[i]].symbol)
    {
      var key := TakeFirst(entries, pending);
      pending := pending - {key};
      keys := keys + [key];
    }
  }

  lemma {:induction false} ListOneMore(scopes: Scopes, parents: Parents, consumer: NodeId, expected: Option<ValueType>,
                                       out: seq<Candidate>, origins: seq<Origin>, c: Candidate, o: Origin)
    requires Lists(scopes, parents, consumer, expected, out, origins)
    requires ShowsOrigin(scopes, parents, consumer, expected, c, o)
    requires c.shadowed <==> SymbolBefore(out, |out|, c.symbol)
    requires o !in origins && forall earlier | earlier in origins :: earlier.steps <= o.steps
    requires forall i | 0 <= i < |out| && origins[i].steps == o.steps :: !Before(c.symbol, out[i].symbol)
    ensures Lists(scopes, parents, consumer, expected, out + [c], origins + [o])
    ensures forall symbol ::
              SymbolBefore(out + [c], |out| + 1, symbol) <==> SymbolBefore(out, |out|, symbol) || symbol == c.symbol
  {
    hide Ancestor, Declares, ShowsOrigin, Before;
    var all := out + [c];
    forall i, symbol | 0 <= i <= |out|
      ensures SymbolBefore(all, i, symbol) <==> SymbolBefore(out, i, symbol)
    {
      assert forall j | 0 <= j < i :: all[j] == out[j];
    }
    assert all[|out|] == c;
  }

  /** What adding or replacing one entry does: refused without a
      symbol or a scope, and a change only if the entry is new. */
  ghost predicate Upserts(before: Scopes, owner: NodeId, key: string, entry: Entry, r: Upserted, after: Scopes) {
    if entry.symbol == "" then r == Refused(EmptySymbol) && after == before
    else if owner !in before then r == Refused(UnknownOwner(owner)) && after == before
    else if key in before[owner].entries && before[owner].entries[key] == entry then
      r == Upserted(false) && after == before
    else
      && r == Upserted(true)
      && after == before[owner := before[owner].(
           entries := before[owner].entries[key := entry],
           generation := Bumped(before[owner].generation))]
  }
}
