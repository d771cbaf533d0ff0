/** What the UI offers for a consumer, against what symbols resolve to. */
module ContextOffers {
  import opened UiTypes
  import opened Text
  import opened UserContexts

  /** The ancestor `steps` above the consumer has an entry that shows the symbol. */
  ghost predicate ShowsAt(scopes: Scopes, parents: Parents, consumer: NodeId, symbol: string, steps: nat) {
    exists key :: ShowsUnder(scopes, parents, consumer, symbol, steps, key)
  }

  predicate ShowsUnder(scopes: Scopes, parents: Parents, consumer: NodeId, symbol: string, steps: nat, key: string) {
    Declares(scopes, parents, consumer, key, steps)
    && EntryAt(scopes, parents, consumer, Origin(steps, key)).symbol == symbol
  }

  /** ... and none below it has one. */
  ghost predicate NearestShowing(scopes: Scopes, parents: Parents, consumer: NodeId, symbol: string, steps: nat) {
    && ShowsAt(scopes, parents, consumer, symbol, steps)
    && forall fewer: nat | fewer < steps :: !ShowsAt(scopes, parents, consumer, symbol, fewer)
  }

  /** The entry stored under `symbol` itself is the nearest one there,
      and every entry beside it that shows the symbol says the same. */
  ghost predicate OneMeaning(scopes: Scopes, parents: Parents, consumer: NodeId, symbol: string, steps: nat) {
    && Nearest(scopes, parents, consumer, symbol, steps)
    && var own := EntryAt(scopes, parents, consumer, Origin(steps, symbol));
       forall key | ShowsUnder(scopes, parents, consumer, symbol, steps, key) ::
         EntryAt(scopes, parents, consumer, Origin(steps, key)) == own.(symbol := symbol)
  }

  /** What a candidate says its symbol resolves to. */
  function Says(c: Candidate): Lookup {
    Resolved(c.symbol, c.entryParam, c.valueType, c.kind, c.multiplex, c.scopeOwner, c.lexicalDepth)
  }

  ghost predicate IsListing(scopes: Scopes, parents: Parents, consumer: NodeId, expected: Option<ValueType>,
                            out: seq<Candidate>, origins: seq<Origin>) {
    Lists(scopes, parents, consumer, expected, out, origins) && ListsAll(scopes, parents, consumer, origins)
  }

  /** In whatever order the entries of a scope are listed, the candidate of
      the symbol that is not shadowed says what the symbol resolves to. */
  ghost predicate OffersItsLookup(scopes: Scopes, parents: Parents, consumer: NodeId, expected: Option<ValueType>,
                                  symbol: string) {
    forall out: seq<Candidate>, origins: seq<Origin>, i |
      && IsListing(scopes, parents, consumer, expected, out, origins)
      && 0 <= i < |out| && out[i].symbol == symbol && !out[i].shadowed ::
      IsLookup(scopes, parents, consumer, symbol, None, Says(out[i]))
  }

  // ---------------------------------------------------------------------
  // Listings
  // ---------------------------------------------------------------------

  lemma {:induction false} OriginShows(scopes: Scopes, parents: Parents, consumer: NodeId, expected: Option<ValueType>,
                                       out: seq<Candidate>, origins: seq<Origin>, i: nat)
    requires Lists(scopes, parents, consumer, expected, out, origins) && i < |out|
    ensures ShowsUnder(scopes, parents, consumer, out[i].symbol, origins[i].steps, origins[i].key)
    ensures ShowsAt(scopes, parents, consumer, out[i].symbol, origins[i].steps)
  {
    assert ShowsOrigin(scopes, parents, consumer, expected, out[i], origins[i]);
    assert ShowsUnder(scopes, parents, consumer, out[i].symbol, origins[i].steps, origins[i].key);
  }

  lemma {:induction false} ShownHasCandidate(scopes: Scopes, parents: Parents, consumer: NodeId,
                                             expected: Option<ValueType>, out: seq<Candidate>, origins: seq<Origin>,
                                             symbol: string, steps: nat, key: string)
    returns (i: nat)
    requires IsListing(scopes, parents, consumer, expected, out, origins)
    requires ShowsUnder(scopes, parents, consumer, symbol, steps, key)
    ensures i < |out| && out[i].symbol == symbol && origins[i] == Origin(steps, key)
  {
    assert Origin(steps, key) in origins;
    i :| 0 <= i < |origins| && origins[i] == Origin(steps, key);
    assert ShowsOrigin(scopes, parents, consumer, expected, out[i], origins[i]);
  }

  lemma {:induction false} FirstOfSymbol(out: seq<Candidate>, symbol: string, i: nat) returns (first: nat)
    requires i < |out| && out[i].symbol == symbol
    ensures first <= i && out[first].symbol == symbol && !SymbolBefore(out, first, symbol)
    decreases i
  {
    first := i;
    if SymbolBefore(out, i, symbol) {
      var j :| 0 <= j < i && out[j].symbol == symbol;
      first := FirstOfSymbol(out, symbol, j);
    }
  }

  /** Every symbol that some visible entry shows is offered by a candidate that is not shadowed. */
  lemma {:induction false} ShownIsOffered(scopes: Scopes, parents: Parents, consumer: NodeId,
                                          expected: Option<ValueType>, out: seq<Candidate>, origins: seq<Origin>,
                                          symbol: string, steps: nat)
    returns (i: nat)
    requires IsListing(scopes, parents, consumer, expected, out, origins)
    requires ShowsAt(scopes, parents, consumer, symbol, steps)
    ensures i < |out| && out[i].symbol == symbol && !out[i].shadowed
  {
    var key :| ShowsUnder(scopes, parents, consumer, symbol, steps, key);
    var j := ShownHasCandidate(scopes, parents, consumer, expected, out, origins, symbol, steps, key);
    i := FirstOfSymbol(out, symbol, j);
  }

  lemma {:induction false} NearerShadows(scopes: Scopes, parents: Parents, consumer: NodeId,
                                         expected: Option<ValueType>, out: seq<Candidate>, origins: seq<Origin>, j: nat,
                                         i: nat)
    requires Lists(scopes, parents, consumer, expected, out, origins) && i < |out| && j < |out|
    requires origins[j].steps < origins[i].steps && out[j].symbol == out[i].symbol
    ensures out[i].shadowed
  {
    assert j < i;
    assert SymbolBefore(out, i, out[i].symbol);
  }

  /** The candidate of a symbol that is not shadowed comes from the nearest scope that shows the symbol. */
  lemma {:induction false} UnshadowedIsNearest(scopes: Scopes, parents: Parents, consumer: NodeId,
                                               expected: Option<ValueType>, out: seq<Candidate>, origins: seq<Origin>,
                                               i: nat)
    requires IsListing(scopes, parents, consumer, expected, out, origins)
    requires i < |out| && !out[i].shadowed
    ensures NearestShowing(scopes, parents, consumer, out[i].symbol, origins[i].steps)
  {
    var symbol, steps := out[i].symbol, origins[i].steps;
    OriginShows(scopes, parents, consumer, expected, out, origins, i);
    forall fewer: nat | fewer < steps
      ensures !ShowsAt(scopes, parents, consumer, symbol, fewer)
    {
      if key :| ShowsUnder(scopes, parents, consumer, symbol, fewer, key) {
        var j := ShownHasCandidate(scopes, parents, consumer, expected, out, origins, symbol, fewer, key);
        NearerShadows(scopes, parents, consumer, expected, out, origins, j, i);
      }
    }
  }

  /** Where a symbol has one meaning, the candidate that is not shadowed is what the symbol resolves to. */
  lemma {:induction false} UnshadowedIsLookup(scopes: Scopes, parents: Parents, consumer: NodeId,
                                              expected: Option<ValueType>, out: seq<Candidate>, origins: seq<Origin>,
                                              i: nat, found: Option<ValueType>)
    requires IsListing(scopes, parents, consumer, expected, out, origins)
    requires i < |out| && !out[i].shadowed
    requires OneMeaning(scopes, parents, consumer, out[i].symbol, origins[i].steps)
    ensures IsLookup(scopes, parents, consumer, out[i].symbol, found,
                     Found(out[i].scopeOwner, EntryAt(scopes, parents, consumer, origins[i]), out[i].symbol, found,
                           origins[i].steps))
    ensures IsLookup(scopes, parents, consumer, out[i].symbol, None, Says(out[i]))
  {
    var symbol, steps := out[i].symbol, origins[i].steps;
    OriginShows(scopes, parents, consumer, expected, out, origins, i);
    assert ShowsOrigin(scopes, parents, consumer, expected, out[i], origins[i]);
    NearestAnswers(scopes, parents, consumer, symbol, found, steps);
    NearestAnswers(scopes, parents, consumer, symbol, None, steps);
  }

  // ---------------------------------------------------------------------
  // Any entry of a scope may be listed first
  // ---------------------------------------------------------------------

  function CandidateFor(owner: NodeId, entry: Entry, steps: nat, expected: Option<ValueType>,
                        shadowed: bool): Candidate {
    Candidate(entry.symbol, entry.valueType, entry.kind, entry.multiplex, owner, AsDepth(steps), entry.param,
              expected.None? || expected.value == entry.valueType, shadowed)
  }

  function SymbolAt(scopes: Scopes, parents: Parents, consumer: NodeId, steps: nat, key: string): string {
    if Declares(scopes, parents, consumer, key, steps)
    then EntryAt(scopes, parents, consumer, Origin(steps, key)).symbol
    else ""
  }

  /** Of some entries of a scope, one that may come next: `first` wherever symbols leave the choice. */
  lemma {:induction false} NextToList(scopes: Scopes, parents: Parents, consumer: NodeId, steps: nat, keys: set<string>,
                                      first: string)
    returns (next: string)
    requires keys != {}
    ensures next in keys
    ensures forall k | k in keys ::
              !Before(SymbolAt(scopes, parents, consumer, steps, k), SymbolAt(scopes, parents, consumer, steps, next))
    ensures first in keys && next != first ==>
              SymbolAt(scopes, parents, consumer, steps, next) != SymbolAt(scopes, parents, consumer, steps, first)
    decreases keys
  {
    var entries := map k | k in keys ::
                     Entry(SymbolAt(scopes, parents, consumer, steps, k), 0, IntType, ScalarEntry, None);
    next := FirstExists(entries, keys);
    if first in keys && entries[first].symbol == entries[next].symbol {
      next := first;
    }
  }

  lemma {:induction false} FirstExists(entries: map<string, Entry>, keys: set<string>) returns (first: string)
    requires keys != {} && keys <= entries.Keys
    ensures FirstBySymbol(entries, keys, first)
    decreases keys
  {
    hide Before;
    var key :| key in keys;
    first := key;
    BeforeIsTotal(entries[key].symbol, entries[key].symbol);
    var rest := keys - {key};
    assert forall k | k in keys :: k == key || k in rest;
    if rest != {} {
      var other := FirstExists(entries, rest);
      BeforeIsTotal(entries[key].symbol, entries[other].symbol);
      if Before(entries[other].symbol, entries[key].symbol) {
        first := other;
      } else {
        forall k | k in rest
          ensures !Before(entries[k].symbol, entries[key].symbol)
        {
          if Before(entries[k].symbol, entries[key].symbol) && Before(entries[key].symbol, entries[other].symbol) {
            BeforeIsTransitive(entries[k].symbol, entries[key].symbol, entries[other].symbol);
          }
        }
      }
    }
  }

  /** In the listing, `first` comes before every other entry of its scope that shows the same symbol. */
  ghost predicate LeadsItsSymbol(out: seq<Candidate>, origins: seq<Origin>, first: Origin, at: nat) {
    && at < |out| == |origins| && origins[at] == first
    && forall j | 0 <= j < at :: origins[j].steps < first.steps || out[j].symbol != out[at].symbol
  }

  /** The listing can still be led by `first`: nothing of its scope with its symbol is in it. */
  ghost predicate CanBeLed(scopes: Scopes, parents: Parents, consumer: NodeId, out: seq<Candidate>,
                           origins: seq<Origin>, first: Origin) {
    && |out| == |origins|
    && forall j | 0 <= j < |out| ::
         origins[j].steps < first.steps || out[j].symbol != SymbolAt(scopes, parents, consumer, first.steps, first.key)
  }

  function NextCandidate(scopes: Scopes, parents: Parents, consumer: NodeId, expected: Option<ValueType>,
                         out: seq<Candidate>, steps: nat, key: string): Candidate
    requires Declares(scopes, parents, consumer, key, steps)
  {
    var entry := EntryAt(scopes, parents, consumer, Origin(steps, key));
    CandidateFor(Ancestor(parents, consumer, steps).value, entry, steps, expected,
                 SymbolBefore(out, |out|, entry.symbol))
  }

  lemma {:induction false} ListNext(scopes: Scopes, parents: Parents, consumer: NodeId, expected: Option<ValueType>,
                                    out: seq<Candidate>, origins: seq<Origin>, steps: nat, keys: set<string>,
                                    key: string)
    requires Lists(scopes, parents, consumer, expected, out, origins) && key in keys
    requires forall k | k in keys :: Declares(scopes, parents, consumer, k, steps) && Origin(steps, k) !in origins
    requires forall o | o in origins :: o.steps <= steps
    requires forall i, k | 0 <= i < |out| && origins[i].steps == steps && k in keys ::
               !Before(SymbolAt(scopes, parents, consumer, steps, k), out[i].symbol)
    requires forall k | k in keys ::
               !Before(SymbolAt(scopes, parents, consumer, steps, k), SymbolAt(scopes, parents, consumer, steps, key))
    ensures var all := out + [NextCandidate(scopes, parents, consumer, expected, out, steps, key)];
            var from := origins + [Origin(steps, key)];
            && all[|out|].symbol == SymbolAt(scopes, parents, consumer, steps, key)
            && Lists(scopes, parents, consumer, expected, all, from)
            && forall i, k | 0 <= i < |all| && from[i].steps == steps && k in keys ::
                 !Before(SymbolAt(scopes, parents, consumer, steps, k), all[i].symbol)
  {
    var c := NextCandidate(scopes, parents, consumer, expected, out, steps, key);
    hide Before, Ancestor;
    ListOneMore(scopes, parents, consumer, expected, out, origins, c, Origin(steps, key));
  }

  lemma {:induction false} StillLeads(out: seq<Candidate>, origins: seq<Origin>, more: seq<Candidate>,
                                      from: seq<Origin>, first: Origin, at: nat)
    requires LeadsItsSymbol(out, origins, first, at) && out <= more && origins <= from && |more| == |from|
    ensures LeadsItsSymbol(more, from, first, at)
  {
    assert forall j | 0 <= j <= at :: more[j] == out[j] && from[j] == origins[j];
  }

  /** Entries of the ancestor `steps` above the consumer, added to a listing in the order of their symbols, with `first`
      before the others of its symbol. */
  lemma {:induction false} ListScope(scopes: Scopes, parents: Parents, consumer: NodeId, expected: Option<ValueType>,
                                     out: seq<Candidate>, origins: seq<Origin>, steps: nat, keys: set<string>,
                                     first: string)
    returns (more: seq<Candidate>, from: seq<Origin>, at: nat)
    requires Lists(scopes, parents, consumer, expected, out, origins)
    requires forall key | key in keys ::
               Declares(scopes, parents, consumer, key, steps) && Origin(steps, key) !in origins
    requires forall o | o in origins :: o.steps <= steps
    requires forall i, key | 0 <= i < |out| && origins[i].steps == steps && key in keys ::
               !Before(SymbolAt(scopes, parents, consumer, steps, key), out[i].symbol)
    requires first in keys ==> CanBeLed(scopes, parents, consumer, out, origins, Origin(steps, first))
    ensures Lists(scopes, parents, consumer, expected, more, from)
    ensures origins <= from && out <= more
    ensures forall o :: o in from <==> o in origins || (o.steps == steps && o.key in keys)
    ensures first in keys ==> LeadsItsSymbol(more, from, Origin(steps, first), at)
    decreases keys
  {
    more, from, at := out, origins, |out|;
    if keys != {} {
      var key := NextToList(scopes, parents, consumer, steps, keys, first);
      var c := NextCandidate(scopes, parents, consumer, expected, out, steps, key);
      ListNext(scopes, parents, consumer, expected, out, origins, steps, keys, key);
      hide *;
      assert forall o :: o in origins + [Origin(steps, key)] <==> o in origins || o == Origin(steps, key);
      more, from, at := ListScope(scopes, parents, consumer, expected, out + [c], origins + [Origin(steps, key)], steps,
                                  keys - {key}, first);
      if key == first {
        at := |out|;
        StillLeads(out + [c], origins + [Origin(steps, key)], more, from, Origin(steps, key), |out|);
      }
    }
  }

  function KeysAt(scopes: Scopes, parents: Parents, consumer: NodeId, steps: nat): (r: set<string>)
    ensures forall key :: key in r <==> Declares(scopes, parents, consumer, key, steps)
  {
    var node := Ancestor(parents, consumer, steps);
    if node.Some? && node.value in scopes then scopes[node.value].entries.Keys else {}
  }

  ghost predicate ListsBelow(scopes: Scopes, parents: Parents, consumer: NodeId, origins: seq<Origin>, top: nat) {
    forall o: Origin :: o in origins <==> o.steps < top && Declares(scopes, parents, consumer, o.key, o.steps)
  }

  lemma {:induction false} ListBelow(scopes: Scopes, parents: Parents, consumer: NodeId, expected: Option<ValueType>,
                                     first: Origin, top: nat)
    returns (out: seq<Candidate>, origins: seq<Origin>, at: nat)
    requires Declares(scopes, parents, consumer, first.key, first.steps)
    ensures Lists(scopes, parents, consumer, expected, out, origins)
            && ListsBelow(scopes, parents, consumer, origins, top)
    ensures first.steps < top ==> LeadsItsSymbol(out, origins, first, at)
    decreases top
  {
    out, origins, at := [], [], 0;
    if top > 0 {
      var steps := top - 1;
      var below, before, led := ListBelow(scopes, parents, consumer, expected, first, steps);
      out, origins, at := ListScope(scopes, parents, consumer, expected, below, before, steps,
                                    KeysAt(scopes, parents, consumer, steps), first.key);
      if first.steps < steps {
        at := led;
        assert forall j | 0 <= j < |below| :: out[j] == below[j] && origins[j] == before[j];
      }
    }
  }

  /** For every visible entry there is a listing that puts it before the other entries of its scope with its symbol. */
  lemma {:induction false} SomeListingStartsWith(scopes: Scopes, parents: Parents, consumer: NodeId,
                                                 expected: Option<ValueType>, first: Origin, top: nat)
    returns (out: seq<Candidate>, origins: seq<Origin>, at: nat)
    requires Ancestor(parents, consumer, top).None? && Declares(scopes, parents, consumer, first.key, first.steps)
    ensures IsListing(scopes, parents, consumer, expected, out, origins) && LeadsItsSymbol(out, origins, first, at)
  {
    if top <= first.steps {
      NothingAboveTheTop(scopes, parents, consumer, first.key, top, first.steps);
    }
    out, origins, at := ListBelow(scopes, parents, consumer, expected, first, top);
    forall o: Origin | Declares(scopes, parents, consumer, o.key, o.steps)
      ensures o in origins
    {
      if top <= o.steps {
        NothingAboveTheTop(scopes, parents, consumer, o.key, top, o.steps);
      }
    }
  }

  // ---------------------------------------------------------------------
  // Exactly when the offer can be trusted
  // ---------------------------------------------------------------------

  lemma {:induction false} RepeatsAbove(parents: Parents, consumer: NodeId, a: nat, b: nat, more: nat)
    requires Ancestor(parents, consumer, a) == Ancestor(parents, consumer, b)
    ensures Ancestor(parents, consumer, a + more) == Ancestor(parents, consumer, b + more)
    decreases more
  {
    if more > 0 {
      RepeatsAbove(parents, consumer, a, b, more - 1);
    }
  }

  /** A climb that ends meets no node twice. */
  lemma {:induction false} NoNodeTwice(parents: Parents, consumer: NodeId, a: nat, b: nat, top: nat)
    requires Ancestor(parents, consumer, top).None? && a < b
    requires Ancestor(parents, consumer, b).Some?
    ensures Ancestor(parents, consumer, a) != Ancestor(parents, consumer, b)
    decreases top
  {
    if top <= b {
      NothingAboveTheTop(map[], parents, consumer, "", top, b);
    } else if Ancestor(parents, consumer, a) == Ancestor(parents, consumer, b) {
      RepeatsAbove(parents, consumer, a, b, top - b);
      NoNodeTwice(parents, consumer, a, b, a + (top - b));
    }
  }

  /** A candidate that says what its symbol resolves to agrees with the entry stored under the symbol. */
  lemma {:induction false} SaysMeansOwn(scopes: Scopes, parents: Parents, consumer: NodeId, symbol: string, o: Origin,
                                        top: nat)
    requires Ancestor(parents, consumer, top).None?
    requires ShowsUnder(scopes, parents, consumer, symbol, o.steps, o.key)
    requires var entry := EntryAt(scopes, parents, consumer, o);
             IsLookup(scopes, parents, consumer, symbol, None,
                      Found(Ancestor(parents, consumer, o.steps).value, entry, symbol, None, o.steps))
    ensures Nearest(scopes, parents, consumer, symbol, o.steps)
    ensures EntryAt(scopes, parents, consumer, o)
            == EntryAt(scopes, parents, consumer, Origin(o.steps, symbol)).(symbol := symbol)
  {
    var entry, owner := EntryAt(scopes, parents, consumer, o), Ancestor(parents, consumer, o.steps).value;
    assert Found(owner, entry, symbol, None, o.steps) != Missing(symbol);
    var steps: nat :| Declares(scopes, parents, consumer, symbol, steps);
    SomeNearest(scopes, parents, consumer, symbol, steps);
    var nearest: nat :| Nearest(scopes, parents, consumer, symbol, nearest);
    var node := Ancestor(parents, consumer, nearest).value;
    assert Found(owner, entry, symbol, None, o.steps)
           == Found(node, scopes[node].entries[symbol], symbol, None, nearest);
    if nearest < o.steps {
      NoNodeTwice(parents, consumer, nearest, o.steps, top);
    } else if o.steps < nearest {
      NoNodeTwice(parents, consumer, o.steps, nearest, top);
    }
  }

  /** If the offer can be trusted in every order of listing, every entry
      that shows the symbol there says what the symbol resolves to. */
  lemma {:induction false} ListedFirstSays(scopes: Scopes, parents: Parents, consumer: NodeId,
                                           expected: Option<ValueType>, symbol: string, o: Origin, top: nat)
    requires Ancestor(parents, consumer, top).None? && OffersItsLookup(scopes, parents, consumer, expected, symbol)
    requires NearestShowing(scopes, parents, consumer, symbol, o.steps)
    requires ShowsUnder(scopes, parents, consumer, symbol, o.steps, o.key)
    requires WellKept(scopes)
    ensures IsLookup(scopes, parents, consumer, symbol, None,
                     Found(Ancestor(parents, consumer, o.steps).value, EntryAt(scopes, parents, consumer, o), symbol,
                           None, o.steps))
  {
    var out, origins, at := SomeListingStartsWith(scopes, parents, consumer, expected, o, top);
    assert ShowsOrigin(scopes, parents, consumer, expected, out[at], origins[at]);
    forall j | 0 <= j < at
      ensures out[j].symbol != symbol
    {
      OriginShows(scopes, parents, consumer, expected, out, origins, j);
      assert origins[j].steps < o.steps || out[j].symbol != out[at].symbol;
    }
    assert !SymbolBefore(out, at, symbol);
    assert out[at].symbol == symbol && !out[at].shadowed;
  }

  /** Whatever order a scope's entries are listed in, the candidate of a symbol that is not shadowed is what the
      symbol resolves to: exactly if the nearest scope that shows the symbol is also the nearest that has an entry
      under it, and every entry there that shows the symbol says the same as that one. */
  lemma {:induction false} OfferIsLookupExactly(scopes: Scopes, parents: Parents, consumer: NodeId,
                                                expected: Option<ValueType>, symbol: string, steps: nat, top: nat)
    requires Ancestor(parents, consumer, top).None? && NearestShowing(scopes, parents, consumer, symbol, steps)
    requires WellKept(scopes)
    ensures OffersItsLookup(scopes, parents, consumer, expected, symbol)
            <==> OneMeaning(scopes, parents, consumer, symbol, steps)
  {
    if OneMeaning(scopes, parents, consumer, symbol, steps) {
      forall out: seq<Candidate>, origins: seq<Origin>, i |
          && IsListing(scopes, parents, consumer, expected, out, origins)
          && 0 <= i < |out| && out[i].symbol == symbol && !out[i].shadowed
        ensures IsLookup(scopes, parents, consumer, symbol, None, Says(out[i]))
      {
        UnshadowedIsNearest(scopes, parents, consumer, expected, out, origins, i);
        assert origins[i].steps == steps;
        UnshadowedIsLookup(scopes, parents, consumer, expected, out, origins, i, None);
      }
    }
    if OffersItsLookup(scopes, parents, consumer, expected, symbol) {
      forall key | ShowsUnder(scopes, parents, consumer, symbol, steps, key)
        ensures Nearest(scopes, parents, consumer, symbol, steps)
        ensures EntryAt(scopes, parents, consumer, Origin(steps, key))
                == EntryAt(scopes, parents, consumer, Origin(steps, symbol)).(symbol := symbol)
      {
        ListedFirstSays(scopes, parents, consumer, expected, symbol, Origin(steps, key), top);
        SaysMeansOwn(scopes, parents, consumer, symbol, Origin(steps, key), top);
      }
      var key :| ShowsUnder(scopes, parents, consumer, symbol, steps, key);
      assert Nearest(scopes, parents, consumer, symbol, steps);
    }
  }

  // ---------------------------------------------------------------------
  // Two lists under one symbol
  // ---------------------------------------------------------------------

  function ListNamed(list: NodeId, link: string): MultiplexList {
    MultiplexList(7, list, "axis", "i", "i0", link, StrType, [])
  }

  function ListEntry(symbol: string, list: MultiplexList): Entry {
    Entry(symbol, list.list, list.valueType, MultiplexListEntry, Some(list))
  }

  lemma {:induction false} OwnScopeIsNearest(scopes: Scopes, parents: Parents, consumer: NodeId, symbol: string)
    requires consumer in scopes && symbol in scopes[consumer].entries
    requires scopes[consumer].entries[symbol].symbol == symbol
    ensures Nearest(scopes, parents, consumer, symbol, 0) && NearestShowing(scopes, parents, consumer, symbol, 0)
  {
    assert ShowsUnder(scopes, parents, consumer, symbol, 0, symbol);
  }

  const FIRST := ListEntry("Names", ListNamed(10, "@10"))
  const SECOND := ListEntry("Names", ListNamed(11, "@11"))

  function OneScope(generation: u64, entries: map<string, Entry>): Scopes {
    map[1 := ContextScope(1, generation, entries)]
  }

  lemma {:induction false} NamesAreOffered(entries: map<string, Entry>, generation: u64)
    requires entries == map["Names" := FIRST] || entries == map["Names" := FIRST, "@11" := SECOND]
    ensures OffersItsLookup(OneScope(generation, entries), map[], 1, None, "Names") <==> "@11" !in entries
    ensures IsLookup(OneScope(generation, entries), map[], 1, "Names", None,
                     Resolved("Names", 10, StrType, MultiplexListEntry, FIRST.multiplex, 1, 0))
  {
    var scopes := OneScope(generation, entries);
    assert "@11"[0] != "Names"[0];
    assert "Names"[0] == 'N' && "Names"[4] == 's';
    OwnScopeIsNearest(scopes, map[], 1, "Names");
    if "@11" in entries {
      assert ShowsUnder(scopes, map[], 1, "Names", 0, "@11");
      assert EntryAt(scopes, map[], 1, Origin(0, "@11")) == SECOND;
    }
    NearestAnswers(scopes, map[], 1, "Names", None, 0);
    assert Ancestor(map[], 1, 1).None?;
    OfferIsLookupExactly(scopes, map[], 1, None, "Names", 0, 1);
  }

  /** A scope with two lists of one name, stored as the registry stores them: the name keeps
      resolving to the first list, but a listing may offer the second one as not shadowed. */
  lemma {:induction false} AnotherListCanMislead()
    ensures var empty, one := OneScope(0, map[]), OneScope(1, map["Names" := FIRST]);
            var two := OneScope(2, map["Names" := FIRST, "@11" := SECOND]);
            && Upserts(empty, 1, "Names", FIRST, Upserted(true), one)
            && Upserts(one, 1, "@11", SECOND, Upserted(true), two)
            && IsLookup(two, map[], 1, "Names", None,
                        Resolved("Names", 10, StrType, MultiplexListEntry, FIRST.multiplex, 1, 0))
            && OffersItsLookup(one, map[], 1, None, "Names")
            && !OffersItsLookup(two, map[], 1, None, "Names")
  {
    hide OffersItsLookup, IsLookup;
    var none: map<string, Entry> := map[];
    assert "@11"[0] != "Names"[0];
    assert none["Names" := FIRST] == map["Names" := FIRST];
    assert map["Names" := FIRST]["@11" := SECOND] == map["Names" := FIRST, "@11" := SECOND];
    NamesAreOffered(map["Names" := FIRST], 1);
    NamesAreOffered(map["Names" := FIRST, "@11" := SECOND], 2);
  }
}
