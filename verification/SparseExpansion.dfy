/** Expansion as the loader runs it, with consumed flags, and what its matching of saved children guarantees. */
module SparseExpansion {
  import opened UiTypes
  import opened SparseDeltas
  import opened SparseCodec
  import opened SparseSaving

  // ---------------------------------------------------------------------
  // Flags against the list of what is left
  // ---------------------------------------------------------------------

  /** The saved children whose flag is down, in order. */
  function Keep(overlays: seq<Record>, consumed: seq<bool>): (r: seq<Record>)
    requires |overlays| == |consumed|
    decreases |overlays|
  {
    if overlays == [] then [] else
    (if consumed[0] then [] else [overlays[0]]) + Keep(overlays[1..], consumed[1..])
  }

  lemma {:induction false} KeepConcat(a: seq<Record>, ca: seq<bool>, b: seq<Record>, cb: seq<bool>)
    requires |a| == |ca| && |b| == |cb|
    ensures Keep(a + b, ca + cb) == Keep(a, ca) + Keep(b, cb)
    decreases |a|
  {
    if a == [] {
      assert a + b == b && ca + cb == cb;
    } else {
      assert (a + b)[1..] == a[1..] + b && (ca + cb)[1..] == ca[1..] + cb;
      KeepConcat(a[1..], ca[1..], b, cb);
    }
  }

  lemma {:induction false} KeepsUnconsumed(overlays: seq<Record>, consumed: seq<bool>)
    requires |overlays| == |consumed|
    ensures forall o | o in Keep(overlays, consumed) ::
              exists i :: 0 <= i < |overlays| && overlays[i] == o && !consumed[i]
    ensures forall i | 0 <= i < |overlays| && !consumed[i] :: overlays[i] in Keep(overlays, consumed)
    decreases |overlays|
  {
    if overlays != [] {
      var rest, flags := overlays[1..], consumed[1..];
      KeepsUnconsumed(rest, flags);
      forall o | o in Keep(overlays, consumed)
        ensures exists i :: 0 <= i < |overlays| && overlays[i] == o && !consumed[i]
      {
        if o in Keep(rest, flags) {
          var i :| 0 <= i < |rest| && rest[i] == o && !flags[i];
          assert overlays[i + 1] == o && !consumed[i + 1];
        } else {
          assert overlays[0] == o && !consumed[0];
        }
      }
      forall i | 0 <= i < |overlays| && !consumed[i]
        ensures overlays[i] in Keep(overlays, consumed)
      {
        if i > 0 {
          assert rest[i - 1] in Keep(rest, flags);
        }
      }
    }
  }

  lemma {:induction false} KeepAll(overlays: seq<Record>, consumed: seq<bool>)
    requires |overlays| == |consumed| && forall i | 0 <= i < |consumed| :: !consumed[i]
    ensures Keep(overlays, consumed) == overlays
    decreases |overlays|
  {
    if overlays != [] {
      KeepAll(overlays[1..], consumed[1..]);
    }
  }

  /** Where the flagged position `i` sits in the list of what is left. */
  lemma {:induction false} KeepAround(overlays: seq<Record>, consumed: seq<bool>, i: nat)
    requires |overlays| == |consumed| && i < |overlays| && !consumed[i]
    ensures var before, after := Keep(overlays[..i], consumed[..i]), Keep(overlays[i + 1..], consumed[i + 1..]);
            && Keep(overlays, consumed) == before + [overlays[i]] + after
            && Keep(overlays, consumed[i := true]) == before + after
  {
    var x := [overlays[i]];
    assert overlays == overlays[..i] + (x + overlays[i + 1..]);
    assert consumed == consumed[..i] + ([false] + consumed[i + 1..]);
    assert consumed[i := true] == consumed[..i] + ([true] + consumed[i + 1..]);
    KeepConcat(overlays[..i], consumed[..i], x + overlays[i + 1..], [false] + consumed[i + 1..]);
    KeepConcat(overlays[..i], consumed[..i], x + overlays[i + 1..], [true] + consumed[i + 1..]);
    KeepConcat(x, [false], overlays[i + 1..], consumed[i + 1..]);
    KeepConcat(x, [true], overlays[i + 1..], consumed[i + 1..]);
    assert x[1..] == [];
    assert Keep(x, [false]) == x && Keep(x, [true]) == [];
  }

  predicate Claims(overlays: seq<Record>, consumed: seq<bool>, slot: Record, i: nat)
    requires |overlays| == |consumed|
  {
    i < |overlays| && !consumed[i] && SameSlot(overlays[i], slot)
  }

  /** `i` is the first unconsumed claim on `slot`, or the first one with a payload. */
  ghost predicate FirstClaim(overlays: seq<Record>, consumed: seq<bool>, slot: Record, i: nat, withPayload: bool)
    requires |overlays| == |consumed|
  {
    && Claims(overlays, consumed, slot, i)
    && (withPayload ==> HasPayload(overlays[i]))
    && (forall j: nat | j < i && Claims(overlays, consumed, slot, j) :: withPayload && !HasPayload(overlays[j]))
  }

  /** The loader's choice by index: the first claim with a payload, otherwise the first claim. */
  ghost predicate LoaderPicks(overlays: seq<Record>, consumed: seq<bool>, slot: Record, i: nat)
    requires |overlays| == |consumed|
  {
    || FirstClaim(overlays, consumed, slot, i, true)
    || (FirstClaim(overlays, consumed, slot, i, false)
        && forall j: nat | Claims(overlays, consumed, slot, j) :: !HasPayload(overlays[j]))
  }

  lemma {:induction false} FirstClaimIsFirstChosen(overlays: seq<Record>, consumed: seq<bool>, slot: Record, i: nat,
                                                   withPayload: bool)
    requires |overlays| == |consumed| && FirstClaim(overlays, consumed, slot, i, withPayload)
    ensures var left := Keep(overlays, consumed);
            var before := Keep(overlays[..i], consumed[..i]);
            AnyMatch(left, slot, withPayload) && FirstChosen(left, slot, withPayload) == |before|
  {
    var left, before := Keep(overlays, consumed), Keep(overlays[..i], consumed[..i]);
    KeepAround(overlays, consumed, i);
    assert left[|before|] == overlays[i];
    assert AnyMatch(left, slot, withPayload);
    KeepsUnconsumed(overlays[..i], consumed[..i]);
    forall k | 0 <= k < |before|
      ensures !Chosen(left[k], slot, withPayload)
    {
      assert left[k] == before[k] && before[k] in before;
      var j :| 0 <= j < i && overlays[..i][j] == before[k] && !consumed[..i][j];
      assert Claims(overlays, consumed, slot, j) ==> withPayload && !HasPayload(overlays[j]);
    }
  }

  lemma {:induction false} NoPayloadNoMatch(overlays: seq<Record>, consumed: seq<bool>, slot: Record)
    requires |overlays| == |consumed| && forall j: nat | Claims(overlays, consumed, slot, j) :: !HasPayload(overlays[j])
    ensures !AnyMatch(Keep(overlays, consumed), slot, true)
  {
    var left := Keep(overlays, consumed);
    KeepsUnconsumed(overlays, consumed);
    forall k | 0 <= k < |left|
      ensures !(SameSlot(left[k], slot) && HasPayload(left[k]))
    {
      assert left[k] in left;
      var j :| 0 <= j < |overlays| && overlays[j] == left[k] && !consumed[j];
      assert SameSlot(left[k], slot) ==> Claims(overlays, consumed, slot, j);
    }
  }

  lemma {:induction false} ClaimIsUnconsumed(overlays: seq<Record>, consumed: seq<bool>, slot: Record, i: nat)
    requires |overlays| == |consumed| && LoaderPicks(overlays, consumed, slot, i)
    ensures i < |consumed| && !consumed[i]
  {
  }

  /** The index the loader picks is the one the list of what is left gives. */
  lemma {:induction false} LoaderPickIsPick(overlays: seq<Record>, consumed: seq<bool>, slot: Record, i: nat)
    requires |overlays| == |consumed| && LoaderPicks(overlays, consumed, slot, i)
    ensures var left := Keep(overlays, consumed);
            var before := Keep(overlays[..i], consumed[..i]);
            && Pick(left, slot) == Some(|before|)
            && |before| < |left| && left[|before|] == overlays[i]
            && left[..|before|] + left[|before| + 1..] == Keep(overlays, consumed[i := true])
  {
    hide Keep, FirstClaim, AnyMatch, FirstChosen, SameSlot, HasPayload, Claims;
    if FirstClaim(overlays, consumed, slot, i, true) {
      FirstClaimIsFirstChosen(overlays, consumed, slot, i, true);
    } else {
      FirstClaimIsFirstChosen(overlays, consumed, slot, i, false);
      NoPayloadNoMatch(overlays, consumed, slot);
    }
    ClaimIsUnconsumed(overlays, consumed, slot, i);
    KeepAround(overlays, consumed, i);
  }

  lemma {:induction false} NoClaimNoPick(overlays: seq<Record>, consumed: seq<bool>, slot: Record)
    requires |overlays| == |consumed| && forall i: nat :: !Claims(overlays, consumed, slot, i)
    ensures Pick(Keep(overlays, consumed), slot).None?
  {
    KeepsUnconsumed(overlays, consumed);
    var left := Keep(overlays, consumed);
    forall k | 0 <= k < |left|
      ensures !SameSlot(left[k], slot)
    {
      assert left[k] in left;
      var j :| 0 <= j < |overlays| && overlays[j] == left[k] && !consumed[j];
      assert !Claims(overlays, consumed, slot, j);
    }
  }

  /** The saved record holds data, a child, or some metadata besides its declared id. */
  predicate SaysSomething(r: Record) {
    || r.data.Some?
    || |r.children| > 0
    || ShortName in r.meta
    || Enabled in r.meta
    || CanBeDisabled in r.meta
    || DisplayLabel in r.meta
    || Description in r.meta
    || DeclaredDescriptionKey in r.meta
    || DeclaredDescription in r.meta
    || Tags in r.meta
    || UserPermissions in r.meta
    || Semantics in r.meta
    || Presentation in r.meta
  }

  /** A slot is filled by the first claim that says something, and if none does by the first claim. */
  ghost predicate Fills(overlays: seq<Record>, slot: Record, i: nat) {
    && i < |overlays| && SameSlot(overlays[i], slot)
    && if SaysSomething(overlays[i])
       then forall j | 0 <= j < i && SameSlot(overlays[j], slot) :: !SaysSomething(overlays[j])
       else forall j | 0 <= j < |overlays| && j != i && SameSlot(overlays[j], slot) ::
              i < j && !SaysSomething(overlays[j])
  }

  lemma {:induction false} PayloadIsSomething(r: Record)
    ensures HasPayload(r) <==> SaysSomething(r)
  {
  }

  lemma {:induction false} PickExactly(overlays: seq<Record>, slot: Record)
    ensures forall i: nat :: Fills(overlays, slot, i) <==> Pick(overlays, slot) == Some(i)
    ensures Pick(overlays, slot).None? <==> forall o | o in overlays :: !SameSlot(o, slot)
  {
    forall i | 0 <= i < |overlays|
      ensures HasPayload(overlays[i]) <==> SaysSomething(overlays[i])
    {
      PayloadIsSomething(overlays[i]);
    }
    hide SameSlot, HasPayload, SaysSomething;
    var pick := Pick(overlays, slot);
    if pick.Some? {
      assert Fills(overlays, slot, pick.value);
      forall i: nat | Fills(overlays, slot, i)
        ensures i == pick.value
      {
        assert SameSlot(overlays[i], slot) && SameSlot(overlays[pick.value], slot);
      }
    }
  }

  /** Raising the flag of every claim on a slot leaves what dropping the slot's claims leaves. */
  lemma {:induction false} ConsumingAllClaims(overlays: seq<Record>, consumed: seq<bool>, slot: Record,
                                              after: seq<bool>)
    requires |overlays| == |consumed| == |after|
    requires forall i | 0 <= i < |after| :: after[i] == (consumed[i] || SameSlot(overlays[i], slot))
    ensures Keep(overlays, after) == WithoutSlot(Keep(overlays, consumed), slot)
    decreases |overlays|
  {
    if overlays != [] {
      ConsumingAllClaims(overlays[1..], consumed[1..], slot, after[1..]);
      var rest := Keep(overlays[1..], consumed[1..]);
      if !consumed[0] {
        assert ([overlays[0]] + rest)[1..] == rest;
      } else {
        assert [] + rest == rest;
      }
    }
  }

  // ---------------------------------------------------------------------
  // The loader
  // ---------------------------------------------------------------------

  /** All unconsumed claims on a slot, in order. */
  ghost predicate ListsClaims(indices: seq<nat>, overlays: seq<Record>, consumed: seq<bool>, slot: Record)
    requires |overlays| == |consumed|
  {
    && (forall k | 0 <= k < |indices| :: Claims(overlays, consumed, slot, indices[k]))
    && (forall i: nat | Claims(overlays, consumed, slot, i) :: i in indices)
    && (forall j, k | 0 <= j < k < |indices| :: indices[j] < indices[k])
  }

  method MatchingIndices(overlays: seq<Record>, consumed: array<bool>, slot: Record) returns (indices: seq<nat>)
    requires consumed.Length == |overlays|
    ensures ListsClaims(indices, overlays, consumed[..], slot)
  {
    indices := [];
    for index := 0 to |overlays|
      invariant forall k | 0 <= k < |indices| :: indices[k] < index && Claims(overlays, consumed[..], slot, indices[k])
      invariant forall i: nat | i < index && Claims(overlays, consumed[..], slot, i) :: i in indices
      invariant forall j, k | 0 <= j < k < |indices| :: indices[j] < indices[k]
    {
      if !consumed[index] && SameSlot(overlays[index], slot) {
        ghost var before := indices;
        indices := indices + [index];
        assert forall i | i in before :: i in indices;
      }
    }
  }

  /** The first matching index whose record has a payload, otherwise the first matching index. */
  method ChooseIndex(overlays: seq<Record>, consumed: array<bool>, slot: Record, indices: seq<nat>)
    returns (chosen: Option<nat>)
    requires consumed.Length == |overlays| && ListsClaims(indices, overlays, consumed[..], slot)
    ensures chosen.None? ==> forall i: nat :: !Claims(overlays, consumed[..], slot, i)
    ensures chosen.Some? ==> LoaderPicks(overlays, consumed[..], slot, chosen.value) && chosen.value in indices
  {
    assert forall k | 0 <= k < |indices| :: indices[k] < |overlays|;
    for k := 0 to |indices|
      invariant forall j | 0 <= j < k :: !HasPayload(overlays[indices[j]])
    {
      if HasPayload(overlays[indices[k]]) {
        forall j: nat | j < indices[k] && Claims(overlays, consumed[..], slot, j)
          ensures !HasPayload(overlays[j])
        {
          var m :| 0 <= m < |indices| && indices[m] == j;
        }
        return Some(indices[k]);
      }
    }
    if indices == [] {
      return None;
    }
    forall j: nat | j < indices[0]
      ensures !Claims(overlays, consumed[..], slot, j)
    {
      assert j !in indices;
    }
    return Some(indices[0]);
  }

  /** Raises the flags that filling one slot uses up. */
  method Consume(overlays: seq<Record>, consumed: array<bool>, slots: seq<Record>, slot: Record, index: nat,
                 indices: seq<nat>)
    requires consumed.Length == |overlays| && index in indices && ListsClaims(indices, overlays, consumed[..], slot)
    requires LoaderPicks(overlays, consumed[..], slot, index)
    modifies consumed
    ensures Keep(overlays, consumed[..]) == Unused(old(Keep(overlays, consumed[..])), slots, slot)
  {
    ghost var flags := consumed[..];
    LoaderPickIsPick(overlays, flags, slot, index);
    if SlotCount(slots, slot) > 1 {
      consumed[index] := true;
      assert consumed[..] == flags[index := true];
    } else {
      assert forall k | 0 <= k < |indices| :: indices[k] < |overlays|;
      for k := 0 to |indices|
        invariant forall i | 0 <= i < |flags| :: consumed[i] == (flags[i] || i in indices[..k])
      {
        consumed[indices[k]] := true;
        assert indices[..k + 1] == indices[..k] + [indices[k]];
      }
      assert indices[..|indices|] == indices;
      forall i | 0 <= i < |flags|
        ensures consumed[i] == (flags[i] || SameSlot(overlays[i], slot))
      {
        assert Claims(overlays, flags, slot, i) <==> !flags[i] && SameSlot(overlays[i], slot);
      }
      ConsumingAllClaims(overlays, flags, slot, consumed[..]);
    }
  }

  method ExpandSparseNodeRecord(schema: Schema, overlay: Record, matched: Option<Record>) returns (expanded: Record)
    ensures expanded == Expand(schema, overlay, matched)
    decreases overlay, 2
  {
    var baseline := ExpansionBaseline(schema, overlay, matched);
    var children := ExpandSparseChildRecords(schema, overlay, baseline.children);
    expanded := MergeRecord(baseline, overlay).(children := children);
  }

  /** What a record's saved children expand to over the declared `slots`. */
  function ExpandedChildren(schema: Schema, record: Record, slots: seq<Record>): seq<Record> {
    var a := Assign(record.children, slots, slots);
    FillSlots(schema, record, a.picks, slots) + ExpandExtras(schema, record, a.leftover)
  }

  /** `done` are the filled slots; filling `todo` from `left` and keeping the rest completes `target`. */
  ghost predicate Progress(schema: Schema, record: Record, done: seq<Record>, left: seq<Record>, slots: seq<Record>,
                           todo: seq<Record>, target: seq<Record>)
  {
    && (forall o | o in left :: o in record.children)
    && var a := Assign(left, slots, todo);
       done + (FillSlots(schema, record, a.picks, todo) + ExpandExtras(schema, record, a.leftover)) == target
  }

  lemma {:induction false} SlotFilled(schema: Schema, record: Record, done: seq<Record>, left: seq<Record>,
                                      slots: seq<Record>, todo: seq<Record>, target: seq<Record>, child: Record)
    requires todo != [] && Progress(schema, record, done, left, slots, todo, target)
    requires child
             == match Pick(left, todo[0]) case Some(i) => Expand(schema, left[i], Some(todo[0])) case None => todo[0]
    ensures Progress(schema, record, done + [child], Unused(left, slots, todo[0]), slots, todo[1..], target)
  {
    hide SameSlot, Expand, ExpandExtras, Unused, SlotCount;
    var a, rest := Assign(left, slots, todo), Assign(Unused(left, slots, todo[0]), slots, todo[1..]);
    assert a.picks[1..] == rest.picks;
    var filled, extras := FillSlots(schema, record, rest.picks, todo[1..]), ExpandExtras(schema, record, rest.leftover);
    assert FillSlots(schema, record, a.picks, todo) == [child] + filled;
    assert done + (([child] + filled) + extras) == (done + [child]) + (filled + extras);
  }

  lemma {:induction false} ProgressStarts(schema: Schema, record: Record, slots: seq<Record>)
    ensures Progress(schema, record, [], record.children, slots, slots, ExpandedChildren(schema, record, slots))
  {
  }

  lemma {:induction false} ProgressEnds(schema: Schema, record: Record, done: seq<Record>, left: seq<Record>,
                                        slots: seq<Record>, target: seq<Record>)
    requires Progress(schema, record, done, left, slots, [], target)
    ensures forall o | o in left :: o in record.children
    ensures done + ExpandExtras(schema, record, left) == target
  {
  }

  /** Fills one declared slot: with the saved child that claims it, or with its default. */
  method FillSlot(schema: Schema, record: Record, consumed: array<bool>, slots: seq<Record>, slot: Record)
    returns (child: Record)
    requires consumed.Length == |record.children|
    modifies consumed
    ensures var left := old(Keep(record.children, consumed[..]));
            && Keep(record.children, consumed[..]) == Unused(left, slots, slot)
            && child == match Pick(left, slot) case Some(i) => Expand(schema, left[i], Some(slot)) case None => slot
    decreases record, 0
  {
    var overlays := record.children;
    ghost var flags := consumed[..];
    var indices := MatchingIndices(overlays, consumed, slot);
    var chosen := ChooseIndex(overlays, consumed, slot, indices);
    if chosen.Some? {
      var index := chosen.value;
      LoaderPickIsPick(overlays, flags, slot, index);
      Consume(overlays, consumed, slots, slot, index, indices);
      child := ExpandSparseNodeRecord(schema, overlays[index], Some(slot));
    } else {
      assert consumed[..] == flags;
      NoClaimNoPick(overlays, flags, slot);
      child := slot;
    }
  }

  /** Fills the declared slots in order, then keeps the unconsumed saved children in their saved order. */
  method ExpandSparseChildRecords(schema: Schema, record: Record, slots: seq<Record>) returns (expanded: seq<Record>)
    ensures expanded == ExpandedChildren(schema, record, slots)
    decreases record, 1
  {
    hide *;
    var overlays := record.children;
    var consumed := new bool[|overlays|](_ => false);
    KeepAll(overlays, consumed[..]);
    ProgressStarts(schema, record, slots);
    expanded := [];
    ghost var target := ExpandedChildren(schema, record, slots);
    assert slots[0..] == slots;
    for i := 0 to |slots|
      invariant Progress(schema, record, expanded, Keep(overlays, consumed[..]), slots, slots[i..], target)
    {
      assert slots[i..][0] == slots[i] && slots[i..][1..] == slots[i + 1..];
      ghost var left := Keep(overlays, consumed[..]);
      var child := FillSlot(schema, record, consumed, slots, slots[i]);
      SlotFilled(schema, record, expanded, left, slots, slots[i..], target, child);
      expanded := expanded + [child];
    }
    assert slots[|slots|..] == [];
    ProgressEnds(schema, record, expanded, Keep(overlays, consumed[..]), slots, target);
    var extras := ExpandUnconsumed(schema, record, consumed);
    expanded := expanded + extras;
  }

  lemma {:induction false} KeepStep(overlays: seq<Record>, consumed: seq<bool>, i: nat)
    requires |overlays| == |consumed| && i < |overlays|
    ensures Keep(overlays[i..], consumed[i..])
            == (if consumed[i] then [] else [overlays[i]]) + Keep(overlays[i + 1..], consumed[i + 1..])
    ensures consumed[i] ==> Keep(overlays[i..], consumed[i..]) == Keep(overlays[i + 1..], consumed[i + 1..])
    ensures forall o | o in Keep(overlays[i + 1..], consumed[i + 1..]) :: o in Keep(overlays[i..], consumed[i..])
  {
    assert overlays[i..][1..] == overlays[i + 1..] && consumed[i..][1..] == consumed[i + 1..];
  }

  lemma {:induction false} JoinNext(done: seq<Record>, next: Record, rest: seq<Record>)
    ensures done + ([next] + rest) == (done + [next]) + rest
  {
  }

  lemma {:induction false} NothingKept(schema: Schema, record: Record)
    ensures Keep([], []) == [] && ExpandExtras(schema, record, []) == []
  {
  }

  lemma {:induction false} ExtrasStep(schema: Schema, record: Record, first: Record, rest: seq<Record>)
    requires forall o | o in [first] + rest :: o in record.children
    ensures forall o | o in rest :: o in record.children
    ensures ExpandExtras(schema, record, [first] + rest)
            == [Expand(schema, first, None)] + ExpandExtras(schema, record, rest)
  {
    assert ([first] + rest)[1..] == rest;
  }

  method ExpandUnconsumed(schema: Schema, record: Record, consumed: array<bool>) returns (extras: seq<Record>)
    requires consumed.Length == |record.children|
    ensures forall o | o in Keep(record.children, consumed[..]) :: o in record.children
    ensures extras == ExpandExtras(schema, record, Keep(record.children, consumed[..]))
    decreases record, 0
  {
    var overlays := record.children;
    ghost var flags := consumed[..];
    extras := [];
    hide Keep, ExpandExtras, Expand;
    KeepsUnconsumed(overlays, flags);
    assert overlays[0..] == overlays && flags[0..] == flags;
    for i := 0 to |overlays|
      invariant forall o | o in Keep(overlays[i..], flags[i..]) :: o in overlays
      invariant extras + ExpandExtras(schema, record, Keep(overlays[i..], flags[i..]))
                == ExpandExtras(schema, record, Keep(overlays, flags))
    {
      KeepStep(overlays, flags, i);
      if consumed[i] {
        continue;
      }
      ghost var later := Keep(overlays[i + 1..], flags[i + 1..]);
      ExtrasStep(schema, record, overlays[i], later);
      var child := ExpandSparseNodeRecord(schema, overlays[i], None);
      JoinNext(extras, child, ExpandExtras(schema, record, later));
      extras := extras + [child];
    }
    assert overlays[|overlays|..] == [] && flags[|flags|..] == [];
    NothingKept(schema, record);
  }

  // ---------------------------------------------------------------------
  // The matching is a disciplined merge
  // ---------------------------------------------------------------------

  function Picked(picks: seq<Option<Record>>): seq<Record> {
    if picks == [] then []
    else (match picks[0] case Some(o) => [o] case None => []) + Picked(picks[1..])
  }

  /** `part` is what remains of `whole` when some elements are taken out. */
  ghost predicate InSavedOrder(part: seq<Record>, whole: seq<Record>)
    decreases |whole|
  {
    part == [] ||
    (whole != [] &&
     ((part[0] == whole[0] && InSavedOrder(part[1..], whole[1..])) || InSavedOrder(part, whole[1..])))
  }

  lemma {:induction false} OrderIsReflexive(whole: seq<Record>)
    ensures InSavedOrder(whole, whole)
    decreases |whole|
  {
    if whole != [] {
      OrderIsReflexive(whole[1..]);
    }
  }

  lemma {:induction false} OrderIsTransitive(a: seq<Record>, b: seq<Record>, c: seq<Record>)
    requires InSavedOrder(a, b) && InSavedOrder(b, c)
    ensures InSavedOrder(a, c)
    decreases |c|
  {
    if a != [] && b != [] {
      if b[0] == c[0] && InSavedOrder(b[1..], c[1..]) {
        if a[0] == b[0] && InSavedOrder(a[1..], b[1..]) {
          OrderIsTransitive(a[1..], b[1..], c[1..]);
        } else {
          OrderIsTransitive(a, b[1..], c[1..]);
        }
      } else {
        OrderIsTransitive(a, b, c[1..]);
      }
    }
  }

  lemma {:induction false} DroppingKeepsOrder(overlays: seq<Record>, slot: Record)
    ensures InSavedOrder(WithoutSlot(overlays, slot), overlays)
    ensures multiset(WithoutSlot(overlays, slot)) <= multiset(overlays)
    ensures forall o | o in overlays && !SameSlot(o, slot) :: o in WithoutSlot(overlays, slot)
    decreases |overlays|
  {
    if overlays != [] {
      DroppingKeepsOrder(overlays[1..], slot);
      assert overlays == [overlays[0]] + overlays[1..];
      var rest := WithoutSlot(overlays[1..], slot);
      if SameSlot(overlays[0], slot) {
        assert WithoutSlot(overlays, slot) == rest;
      } else {
        assert WithoutSlot(overlays, slot)[1..] == rest;
      }
    }
  }

  lemma {:induction false} RemovingKeepsOrder(overlays: seq<Record>, i: nat)
    requires i < |overlays|
    ensures InSavedOrder(overlays[..i] + overlays[i + 1..], overlays)
    decreases |overlays|
  {
    var part := overlays[..i] + overlays[i + 1..];
    if i == 0 {
      OrderIsReflexive(overlays[1..]);
      assert part == overlays[1..];
    } else {
      RemovingKeepsOrder(overlays[1..], i - 1);
      assert part[1..] == overlays[1..][..i - 1] + overlays[1..][i..];
    }
  }

  /** The saved children after one slot: one fewer, in the same order,
      and only claims on an unrepeated slot are dropped. */
  lemma {:induction false} UnusedIsDisciplined(overlays: seq<Record>, slots: seq<Record>, slot: Record)
    ensures InSavedOrder(Unused(overlays, slots, slot), overlays)
    ensures var used := match Pick(overlays, slot) case Some(i) => [overlays[i]] case None => [];
            && multiset(used) + multiset(Unused(overlays, slots, slot)) <= multiset(overlays)
            && forall o | o in overlays ::
                 o in used || o in Unused(overlays, slots, slot) || (SameSlot(o, slot) && SlotCount(slots, slot) <= 1)
  {
    match Pick(overlays, slot) {
      case None => OrderIsReflexive(overlays);
      case Some(i) =>
        assert overlays == overlays[..i] + [overlays[i]] + overlays[i + 1..];
        if SlotCount(slots, slot) > 1 {
          RemovingKeepsOrder(overlays, i);
        } else {
          DroppingKeepsOrder(overlays, slot);
          UsedOnTopOfRest(overlays, slot, i);
        }
    }
  }

  lemma {:induction false} UsedOnTopOfRest(overlays: seq<Record>, slot: Record, i: nat)
    requires i < |overlays| && SameSlot(overlays[i], slot)
    ensures multiset([overlays[i]]) + multiset(WithoutSlot(overlays, slot)) <= multiset(overlays)
  {
    var rest := WithoutSlot(overlays, slot);
    DroppingKeepsOrder(overlays, slot);
    assert overlays[i] !in rest;
    assert multiset(overlays)[overlays[i]] >= 1;
  }

  lemma {:induction false} AssignIsDisciplined(overlays: seq<Record>, slots: seq<Record>, todo: seq<Record>)
    requires forall t | t in todo :: t in slots
    ensures var a := Assign(overlays, slots, todo);
            && multiset(Picked(a.picks)) + multiset(a.leftover) <= multiset(overlays)
            && InSavedOrder(a.leftover, overlays)
            && forall o | o in overlays ::
                 o in Picked(a.picks) || o in a.leftover || DuplicateClaim(o, slots)
    decreases |todo|
  {
    if todo == [] {
      OrderIsReflexive(overlays);
    } else {
      var slot, left := todo[0], Unused(overlays, slots, todo[0]);
      var rest := Assign(left, slots, todo[1..]);
      UnusedIsDisciplined(overlays, slots, slot);
      AssignIsDisciplined(left, slots, todo[1..]);
      OrderIsTransitive(rest.leftover, left, overlays);
      var a := Assign(overlays, slots, todo);
      assert a.picks[1..] == rest.picks;
      var used := match Pick(overlays, slot) case Some(i) => [overlays[i]] case None => [];
      assert Picked(a.picks) == used + Picked(rest.picks);
      assert slot in slots;
    }
  }

  /** `o` claims a declared slot that only one saved child can fill. */
  ghost predicate DuplicateClaim(o: Record, slots: seq<Record>) {
    exists i :: 0 <= i < |slots| && SameSlot(o, slots[i]) && SlotCount(slots, slots[i]) <= 1
  }

  lemma {:induction false} SlotsKeepIdentity(schema: Schema, parent: Record, picks: seq<Option<Record>>,
                                             slots: seq<Record>, i: nat)
    requires |picks| == |slots| && i < |slots|
    requires forall p | p in picks && p.Some? :: p.value in parent.children
    requires forall k | 0 <= k < |picks| && picks[k].Some? :: SameSlot(picks[k].value, slots[k])
    ensures var out := FillSlots(schema, parent, picks, slots)[i];
            && out.nodeType == slots[i].nodeType
            && out.role == slots[i].role
            && (DeclId in slots[i].meta ==> DeclId in out.meta && out.meta[DeclId] == slots[i].meta[DeclId])
            && (picks[i].None? ==> out == slots[i])
            && (picks[i].Some? ==> out.uuid == picks[i].value.uuid)
    decreases i
  {
    if i > 0 {
      SlotsKeepIdentity(schema, parent, picks[1..], slots[1..], i - 1);
    }
  }

  /** Expansion is a disciplined merge: one record for every declared child, in declared order and with its identity,
      then the saved children nobody claimed, in saved order. No saved child is used twice, and one is dropped only
      when it duplicates a claim on an unrepeated slot. */
  lemma {:induction false} MergeIsDisciplined(schema: Schema, record: Record, slots: seq<Record>)
    ensures var a, out := Assign(record.children, slots, slots), ExpandedChildren(schema, record, slots);
            && |out| == |slots| + |a.leftover|
            && (forall i | 0 <= i < |slots| ::
                  && out[i].nodeType == slots[i].nodeType
                  && out[i].role == slots[i].role
                  && (DeclId in slots[i].meta ==> DeclId in out[i].meta && out[i].meta[DeclId] == slots[i].meta[DeclId])
                  && (a.picks[i].None? ==> out[i] == slots[i])
                  && (a.picks[i].Some? ==> out[i].uuid == a.picks[i].value.uuid))
            && out[|slots|..] == ExpandExtras(schema, record, a.leftover)
            && InSavedOrder(a.leftover, record.children)
            && multiset(Picked(a.picks)) + multiset(a.leftover) <= multiset(record.children)
            && (forall o | o in record.children ::
                  o in Picked(a.picks) || o in a.leftover || DuplicateClaim(o, slots))
  {
    var a, out := Assign(record.children, slots, slots), ExpandedChildren(schema, record, slots);
    AssignIsDisciplined(record.children, slots, slots);
    forall i | 0 <= i < |slots|
      ensures && out[i].nodeType == slots[i].nodeType
              && out[i].role == slots[i].role
              && (DeclId in slots[i].meta ==> DeclId in out[i].meta && out[i].meta[DeclId] == slots[i].meta[DeclId])
              && (a.picks[i].None? ==> out[i] == slots[i])
              && (a.picks[i].Some? ==> out[i].uuid == a.picks[i].value.uuid)
    {
      SlotsKeepIdentity(schema, record, a.picks, slots, i);
    }
  }

  // ---------------------------------------------------------------------
  // The saver
  // ---------------------------------------------------------------------

  /** Saves a node and its children in order; a child that is left out is not pushed. */
  method EncodeSparseNodeRecord(s: Saver, node: Record, matched: Option<Record>, allowOmission: bool)
    returns (saved: Option<Record>)
    ensures saved == Encode(s, node, matched, allowOmission)
    ensures saved.None? ==> s.omits(node.meta) || (allowOmission && matched.Some?)
    ensures allowOmission && matched.Some? ==>
              (saved.None? <==> s.omits(node.meta) || NothingToSave(s, node, matched.value))
    decreases node, 1
  {
    if matched.Some? {
      LeftOutExactly(s, node, matched.value);
    }
    hide NothingToSave;
    if s.omits(node.meta) {
      return None;
    }
    var children := EncodeChildren(s, node, SlotsOf(s.schema, node, matched));
    if allowOmission && DefaultBacked(node, matched) && children == [] && node.uuid !in s.referenced {
      return None;
    }
    saved := Some(Record(node.uuid, node.nodeType, node.role,
                         SavedMeta(s.schema, node, matched, allowOmission),
                         SavedData(s.schema, node, matched, allowOmission), children));
  }

  method EncodeChildren(s: Saver, node: Record, slots: seq<Record>) returns (children: seq<Record>)
    ensures children == EncodeAll(s, node.children, slots)
    decreases node, 0
  {
    hide *;
    children := [];
    ghost var all := EncodeAll(s, node.children, slots);
    assert node.children[0..] == node.children;
    assert [] + all == all;
    for i := 0 to |node.children|
      invariant children + EncodeAll(s, node.children[i..], slots) == all
    {
      var child := node.children[i];
      ghost var later := EncodeAll(s, node.children[i + 1..], slots);
      assert node.children[i..][0] == child && node.children[i..][1..] == node.children[i + 1..];
      SavedSplits(s, node.children[i..], slots);
      var record := EncodeSparseNodeRecord(s, child, FindSlot(child, slots), MayOmit(child, slots));
      if record.Some? {
        assert children + ([record.value] + later) == (children + [record.value]) + later;
        children := children + [record.value];
      } else {
        assert children + ([] + later) == children + later;
      }
    }
    assert node.children[|node.children|..] == [];
    SavedSplits(s, [], slots);
  }

  lemma {:induction false} SavedSplits(s: Saver, nodes: seq<Record>, slots: seq<Record>)
    ensures nodes == [] ==> EncodeAll(s, nodes, slots) == []
    ensures nodes != [] ==>
              EncodeAll(s, nodes, slots)
              == (match Encode(s, nodes[0], FindSlot(nodes[0], slots), MayOmit(nodes[0], slots))
                  case Some(r) => [r] case None => [])
                 + EncodeAll(s, nodes[1..], slots)
  {
  }
}
