/** Labels for new children: the preferred one, or the first free number after it. */
module ChildLabels {
  import opened UiTypes
  import opened Text

  const U64_MAX: nat := 0xFFFF_FFFF_FFFF_FFFF

  // ---------------------------------------------------------------------
  // Decimal numbers
  // ---------------------------------------------------------------------

  const DIGITS := "0123456789"

  function Decimal(n: nat): (s: string)
    ensures s != "" && forall i | 0 <= i < |s| :: '0' <= s[i] <= '9'
  {
    if n < 10 then [DIGITS[n]] else Decimal(n / 10) + [DIGITS[n % 10]]
  }

  function Value(digits: string): Option<nat> {
    if digits == "" then Some(0) else
    var last := digits[|digits| - 1];
    match Value(digits[..|digits| - 1])
    case None => None
    case Some(high) => if '0' <= last <= '9' then Some(10 * high + (last as int - '0' as int)) else None
  }

  /** Reads an unsigned 64-bit number, with an optional plus sign. */
  function ParseU64(s: string): (r: Option<nat>)
    ensures r.Some? ==> r.value <= U64_MAX
  {
    var digits := if "+" <= s then s[1..] else s;
    if digits == "" then None else
    match Value(digits)
    case None => None
    case Some(n) => if n <= U64_MAX then Some(n) else None
  }

  lemma {:induction false} ValueOfDecimal(n: nat)
    ensures Value(Decimal(n)) == Some(n)
    decreases n
  {
    if n < 10 {
      assert DIGITS[n] as int == '0' as int + n;
      assert Decimal(n)[..0] == "";
    } else {
      var s := Decimal(n);
      assert s[..|s| - 1] == Decimal(n / 10) && s[|s| - 1] == DIGITS[n % 10];
      assert DIGITS[n % 10] as int == '0' as int + n % 10;
      ValueOfDecimal(n / 10);
    }
  }

  lemma {:induction false} ParseOfDecimal(n: nat)
    ensures ParseU64(Decimal(n)) == if n <= U64_MAX then Some(n) else None
  {
    ValueOfDecimal(n);
    assert Decimal(n)[0] != '+';
  }

  // ---------------------------------------------------------------------
  // Numbered labels
  // ---------------------------------------------------------------------

  /** A text cut at the last `c`. */
  function RSplitOnce(s: string, c: char): (r: Option<(string, string)>)
    ensures r.Some? <==> c in s
    ensures r.Some? ==> s == r.value.0 + [c] + r.value.1 && c !in r.value.1
  {
    if s == "" then None else
    var front, last := s[..|s| - 1], s[|s| - 1];
    if last == c then Some((front, ""))
    else match RSplitOnce(front, c)
         case None => None
         case Some((before, after)) => Some((before, after + [last]))
  }

  function Candidate(base: string, suffix: nat): string {
    base + " " + Decimal(suffix)
  }

  /** The text to number, and the first number to try: a label that ends in a number from 2 on continues it. */
  function UniqueLabelBase(given: string): (r: (string, nat))
    ensures 2 <= r.1 <= U64_MAX + 1
  {
    match RSplitOnce(given, ' ')
    case None => (given, 2)
    case Some((base, suffix)) =>
      if Trim(base) == "" then (given, 2)
      else match ParseU64(suffix)
           case None => (given, 2)
           case Some(n) => if n >= 2 then (base, n + 1) else (given, 2)
  }

  lemma {:induction false} LastCut(before: string, after: string, c: char)
    requires c !in after
    ensures RSplitOnce(before + [c] + after, c) == Some((before, after))
    decreases |after|
  {
    var s := before + [c] + after;
    if after == "" {
      assert s[..|s| - 1] == before;
    } else {
      var front, last := after[..|after| - 1], after[|after| - 1];
      assert after == front + [last];
      assert s == (before + [c] + front) + [last];
      assert s[..|s| - 1] == before + [c] + front && s[|s| - 1] == last;
      LastCut(before, front, c);
    }
  }

  /** The label ends in a number from 2 on, behind a space and a text that is not blank. */
  predicate Numbered(given: string, base: string, suffix: string, n: nat) {
    given == base + " " + suffix && ' ' !in suffix && Trim(base) != "" && ParseU64(suffix) == Some(n) && n >= 2
  }

  /** Such a label is continued from its number, and any other is numbered from 2 on. */
  lemma {:induction false} BaseExactly(given: string)
    ensures forall base, suffix, n: nat | Numbered(given, base, suffix, n) :: UniqueLabelBase(given) == (base, n + 1)
    ensures (forall base, suffix, n: nat :: !Numbered(given, base, suffix, n)) ==> UniqueLabelBase(given) == (given, 2)
  {
    hide RSplitOnce, ParseU64, Trim;
    assert " " == [' '];
    forall base, suffix, n: nat | Numbered(given, base, suffix, n)
      ensures UniqueLabelBase(given) == (base, n + 1)
    {
      LastCut(base, suffix, ' ');
    }
    var cut := RSplitOnce(given, ' ');
    if cut.Some? && Trim(cut.value.0) != "" && ParseU64(cut.value.1).Some? && ParseU64(cut.value.1).value >= 2 {
      assert Numbered(given, cut.value.0, cut.value.1, ParseU64(cut.value.1).value);
    }
  }

  predicate AllDigits(s: string) {
    forall i | 0 <= i < |s| :: '0' <= s[i] <= '9'
  }

  lemma {:induction false} ValueOfDigits(s: string)
    ensures Value(s).Some? <==> AllDigits(s)
    decreases |s|
  {
    if s != "" {
      var front := s[..|s| - 1];
      ValueOfDigits(front);
      assert AllDigits(s) <==> AllDigits(front) && '0' <= s[|s| - 1] <= '9';
    }
  }

  /** Only digits are read as a number, at least one of them, with a plus sign before them or not. */
  lemma {:induction false} OnlyDigitsAreRead(s: string)
    ensures ParseU64(s).Some? ==> AllDigits(if "+" <= s then s[1..] else s) && s != "" && s != "+"
    ensures ParseU64("+" + s) == if "+" <= s then None else ParseU64(s)
  {
    ValueOfDigits(if "+" <= s then s[1..] else s);
    ValueOfDigits(s);
    assert ("+" + s)[1..] == s;
    assert "+" <= s && |s| > 0 ==> s[0] == '+';
  }

  /** A numbered label is continued from its own number. */
  lemma {:induction false} CandidateContinues(base: string, n: nat)
    requires Trim(base) != "" && 2 <= n <= U64_MAX
    ensures UniqueLabelBase(Candidate(base, n)) == (base, n + 1)
  {
    hide RSplitOnce, Decimal, ParseU64, Trim;
    ParseOfDecimal(n);
    assert ' ' !in Decimal(n);
    LastCut(base, Decimal(n), ' ');
    assert " " == [' '];
  }

  /** Different numbers make different labels. */
  lemma {:induction false} CandidatesDiffer(base: string, m: nat, n: nat)
    requires Candidate(base, m) == Candidate(base, n)
    ensures m == n
  {
    assert Decimal(m) == Candidate(base, m)[|base| + 1..] == Decimal(n);
    ValueOfDecimal(m);
    ValueOfDecimal(n);
  }

  // ---------------------------------------------------------------------
  // Allocation
  // ---------------------------------------------------------------------

  datatype Allocation = Allocated(name: string) | SuffixOverflow

  /** The label asked for. */
  function Wanted(preferred: string): (r: string)
    ensures r != "" && Trimmed(r)
  {
    if Trim(preferred) == "" then "Item" else Trim(preferred)
  }

  /** The labels that block a new one: those of the siblings, trimmed, except empty ones. */
  function UsedLabels(siblings: seq<string>): (used: set<string>)
    ensures |used| <= |siblings|
  {
    if siblings == [] then {} else
    var name := Trim(siblings[|siblings| - 1]);
    UsedLabels(siblings[..|siblings| - 1]) + (if name == "" then {} else {name})
  }

  lemma {:induction false} UsedMeans(siblings: seq<string>, name: string)
    ensures name in UsedLabels(siblings) <==> name != "" && exists i :: 0 <= i < |siblings| && Trim(siblings[i]) == name
    decreases |siblings|
  {
    hide Trim;
    if siblings != [] {
      var front := siblings[..|siblings| - 1];
      UsedMeans(front, name);
      assert forall i | 0 <= i < |front| :: front[i] == siblings[i];
    }
  }

  /** The first number from `first` on that is not blocked, and it is near; or all 64-bit numbers are blocked. */
  ghost predicate FirstFree(used: set<string>, base: string, first: nat, r: Allocation) {
    match r
    case Allocated(name) => exists k :: FreeAt(used, base, first, k) && name == Candidate(base, k)
    case SuffixOverflow => forall n | first <= n <= U64_MAX :: Candidate(base, n) in used
  }

  ghost predicate FreeAt(used: set<string>, base: string, first: nat, k: nat) {
    && first <= k <= U64_MAX
    && k <= first + |used|
    && Candidate(base, k) !in used
    && forall n | first <= n < k :: Candidate(base, n) in used
  }

  /** The label is the one asked for if that is free, and otherwise the base of that one with the first free number. */
  ghost predicate Answers(used: set<string>, preferred: string, r: Allocation) {
    && (Wanted(preferred) !in used ==> r == Allocated(Wanted(preferred)))
    && (Wanted(preferred) in used ==>
          var (base, first) := UniqueLabelBase(Wanted(preferred)); FirstFree(used, base, first, r))
    && (r.Allocated? ==> r.name !in used)
  }

  datatype Labelled = Labelled(title: string, firstChild: Option<NodeId>, nextSibling: Option<NodeId>)

  /** The sibling chain from `child` on, up to its end or a missing node, is `ids`. */
  ghost predicate Walks(nodes: map<NodeId, Labelled>, child: Option<NodeId>, ids: seq<NodeId>): (r: bool)
    ensures r ==> forall id | id in ids :: id in nodes
    decreases |ids|
  {
    if child.None? || child.value !in nodes then ids == []
    else ids != [] && ids[0] == child.value && Walks(nodes, nodes[child.value].nextSibling, ids[1..])
  }

  lemma {:induction false} WalksAlike(nodes: map<NodeId, Labelled>, child: Option<NodeId>, a: seq<NodeId>,
                                      b: seq<NodeId>)
    requires Walks(nodes, child, a) && Walks(nodes, child, b)
    ensures a == b
    decreases |a|
  {
    if a != [] {
      WalksAlike(nodes, nodes[child.value].nextSibling, a[1..], b[1..]);
      assert a == [a[0]] + a[1..] && b == [b[0]] + b[1..];
    }
  }

  function Titles(nodes: map<NodeId, Labelled>, ids: seq<NodeId>): (titles: seq<string>)
    requires forall id | id in ids :: id in nodes
    ensures |titles| == |ids| && forall i | 0 <= i < |ids| :: titles[i] == nodes[ids[i]].title
  {
    if ids == [] then [] else Titles(nodes, ids[..|ids| - 1]) + [nodes[ids[|ids| - 1]].title]
  }

  /** A label for a new child of `parent` beside those along its chain of children, which has to end. */
  method NextUniqueChildLabel(nodes: map<NodeId, Labelled>, parent: NodeId, preferred: string) returns (r: Allocation)
    requires parent in nodes ==> exists ids :: Walks(nodes, nodes[parent].firstChild, ids)
    ensures parent !in nodes ==> r == Allocated(Wanted(preferred))
    ensures forall ids | parent in nodes && Walks(nodes, nodes[parent].firstChild, ids) ::
              Answers(UsedLabels(Titles(nodes, ids)), preferred, r)
    ensures r.Allocated? ==> r.name != "" && Trimmed(r.name)
  {
    hide Decimal, Trim, Trimmed, Whitespace, UniqueLabelBase, UsedLabels, Titles;
    if parent !in nodes {
      return Allocated(Wanted(preferred));
    }
    ghost var ids :| Walks(nodes, nodes[parent].firstChild, ids);
    var used := CollectUsedLabels(nodes, nodes[parent].firstChild, ids);
    r := Allocate(used, preferred);
    forall other | Walks(nodes, nodes[parent].firstChild, other)
      ensures Answers(UsedLabels(Titles(nodes, other)), preferred, r)
    {
      WalksAlike(nodes, nodes[parent].firstChild, ids, other);
    }
  }

  method Allocate(used: set<string>, preferred: string) returns (r: Allocation)
    ensures Answers(used, preferred, r)
    ensures r.Allocated? ==> r.name != "" && Trimmed(r.name)
  {
    hide Decimal, Trim, Trimmed, Whitespace, UniqueLabelBase;
    var wanted := Wanted(preferred);
    if wanted !in used {
      return Allocated(wanted);
    }
    var (base, first) := UniqueLabelBase(wanted);
    BaseOfTrimmed(wanted);
    r := FirstCandidate(used, base, first);
    if r.Allocated? {
      ghost var k :| FreeAt(used, base, first, k) && r.name == Candidate(base, k);
      CandidateIsTrimmed(base, k);
    }
  }

  /** Tries one number after another; every blocked number uses up one of the blocking labels. */
  method FirstCandidate(used: set<string>, base: string, first: nat) returns (r: Allocation)
    requires first <= U64_MAX + 1
    ensures FirstFree(used, base, first, r)
  {
    hide Candidate;
    var suffix: nat := first;
    ghost var blocking := used;
    while suffix <= U64_MAX
      invariant first <= suffix <= U64_MAX + 1 && suffix + |blocking| <= first + |used|
      invariant forall n | first <= n < suffix :: Candidate(base, n) in used
      invariant forall n | suffix <= n && Candidate(base, n) in used :: Candidate(base, n) in blocking
      decreases |blocking|
    {
      var candidate := Candidate(base, suffix);
      if candidate !in used {
        assert FreeAt(used, base, first, suffix);
        return Allocated(candidate);
      }
      forall n | suffix + 1 <= n && Candidate(base, n) in used
        ensures Candidate(base, n) in blocking - {candidate}
      {
        if Candidate(base, n) == candidate {
          CandidatesDiffer(base, n, suffix);
        }
      }
      blocking := blocking - {candidate};
      suffix := suffix + 1;
    }
    return SuffixOverflow;
  }

  lemma {:induction false} OneMoreTitle(nodes: map<NodeId, Labelled>, front: seq<NodeId>, id: NodeId)
    requires (forall k | k in front :: k in nodes) && id in nodes
    ensures var name := Trim(nodes[id].title);
            && (forall k | k in front + [id] :: k in nodes)
            && UsedLabels(Titles(nodes, front + [id]))
               == UsedLabels(Titles(nodes, front)) + (if name == "" then {} else {name})
  {
    hide Trim;
    var ids := front + [id];
    assert ids[..|ids| - 1] == front;
    var titles := Titles(nodes, ids);
    assert titles == Titles(nodes, front) + [nodes[id].title];
    assert titles[..|titles| - 1] == Titles(nodes, front);
  }

  lemma {:induction false} NoTitle(nodes: map<NodeId, Labelled>)
    ensures UsedLabels(Titles(nodes, [])) == {}
  {
  }

  lemma {:induction false} WalkStep(nodes: map<NodeId, Labelled>, child: Option<NodeId>, ids: seq<NodeId>, done: nat)
    requires done <= |ids| && Walks(nodes, child, ids[done..])
    ensures child.Some? && child.value in nodes ==>
              && done < |ids| && ids[..done + 1] == ids[..done] + [child.value]
              && Walks(nodes, nodes[child.value].nextSibling, ids[done + 1..])
    ensures child.None? || child.value !in nodes ==> ids[..done] == ids
  {
    if child.Some? && child.value in nodes {
      assert ids[done..][1..] == ids[done + 1..];
    }
  }

  /** Walks the chain of siblings and collects their labels. */
  method CollectUsedLabels(nodes: map<NodeId, Labelled>, first: Option<NodeId>, ghost ids: seq<NodeId>)
    returns (used: set<string>)
    requires Walks(nodes, first, ids)
    ensures used == UsedLabels(Titles(nodes, ids))
  {
    hide Walks, UsedLabels, Titles, Trim;
    used := {};
    var child := first;
    ghost var done := 0;
    assert ids[0..] == ids && ids[..0] == [];
    NoTitle(nodes);
    while child.Some? && child.value in nodes
      invariant done <= |ids| && Walks(nodes, child, ids[done..])
      invariant used == UsedLabels(Titles(nodes, ids[..done]))
      decreases |ids| - done
    {
      var node := nodes[child.value];
      WalkStep(nodes, child, ids, done);
      OneMoreTitle(nodes, ids[..done], child.value);
      var name := Trim(node.title);
      if name != "" {
        used := used + {name};
      }
      child := node.nextSibling;
      done := done + 1;
    }
    WalkStep(nodes, child, ids, done);
  }

  lemma {:induction false} BaseOfTrimmed(wanted: string)
    requires wanted != "" && Trimmed(wanted)
    ensures var (base, first) := UniqueLabelBase(wanted); base != "" && !Whitespace(base[0])
  {
  }

  lemma {:induction false} CandidateIsTrimmed(base: string, suffix: nat)
    requires base != "" && !Whitespace(base[0])
    ensures Candidate(base, suffix) != "" && Trimmed(Candidate(base, suffix))
  {
  }

  /** Some number among the next |used| + 1 is not blocked. */
  lemma {:induction false} PigeonholeOfLabels(used: set<string>, base: string, first: nat)
    ensures exists n :: first <= n <= first + |used| && Candidate(base, n) !in used
    decreases |used|
  {
    hide Candidate;
    var taken := Candidate(base, first);
    if taken !in used {
      assert first <= first + |used|;
    } else {
      PigeonholeOfLabels(used - {taken}, base, first + 1);
      var n :| first + 1 <= n <= first + |used| && Candidate(base, n) !in used - {taken};
      if Candidate(base, n) == taken {
        CandidatesDiffer(base, n, first);
      }
    }
  }

  /** With fewer siblings than numbers left, there is always a label;
      the search fails only when it runs out of numbers. */
  lemma {:induction false} EnoughNumbers(siblings: seq<string>, base: string, first: nat, r: Allocation)
    requires FirstFree(UsedLabels(siblings), base, first, r) && first + |siblings| <= U64_MAX
    ensures r.Allocated?
  {
    hide Candidate;
    PigeonholeOfLabels(UsedLabels(siblings), base, first);
  }

  /** After the largest 64-bit number there is no next one: a child that is to be called
      like a sibling that carries it finds no label, although nothing else is in use. */
  lemma {:induction false} NumbersRunOut(base: string, r: Allocation)
    requires base != "" && Trimmed(base)
    ensures var last := Candidate(base, U64_MAX);
            && Wanted(last) == last && UsedLabels([last]) == {last}
            && UniqueLabelBase(last) == (base, U64_MAX + 1)
            && (FirstFree(UsedLabels([last]), base, U64_MAX + 1, r) <==> r == SuffixOverflow)
  {
    CandidateIsTrimmed(base, U64_MAX);
    hide *;
    CandidateContinues(base, U64_MAX);
    OneUsedLabel(Candidate(base, U64_MAX));
    NothingBeyond(UsedLabels([Candidate(base, U64_MAX)]), base, r);
  }

  lemma {:induction false} OneUsedLabel(taken: string)
    requires taken != "" && Trimmed(taken)
    ensures Wanted(taken) == taken && UsedLabels([taken]) == {taken}
  {
    hide Trimmed;
    assert Trim(taken) == taken && [taken][..0] == [];
    assert UsedLabels([]) == {};
  }

  lemma {:induction false} NothingBeyond(used: set<string>, base: string, r: Allocation)
    ensures FirstFree(used, base, U64_MAX + 1, r) <==> r == SuffixOverflow
  {
  }
}
