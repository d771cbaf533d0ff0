/** Blanking of comments and literals before generated code is scanned for attributes.

  The source is a string of ASCII characters, one per byte.
 */
module SourceScanner {
  import opened UiTypes

  datatype Mode =
    | Normal
    | LineComment
    | BlockComment(depth: nat)
    | StringLiteral
    | CharLiteral
    | RawString(hashes: nat)

  // ---------------------------------------------------------------------
  // What opens a comment or a literal
  // ---------------------------------------------------------------------

  /** How many hashes a text starts with. */
  function Hashes(s: string): (n: nat)
    ensures n <= |s|
    ensures forall i | 0 <= i < n :: s[i] == '#'
    ensures n < |s| ==> s[n] != '#'
  {
    if s != "" && s[0] == '#' then 1 + Hashes(s[1..]) else 0
  }

  function RawPrefix(s: string): nat {
    if "br" <= s then 2 else if "r" <= s then 1 else 0
  }

  /** The number of hashes and of characters that open a raw string. */
  function RawOpening(s: string): (r: Option<(nat, nat)>)
    ensures r.Some? ==> 2 <= r.value.1 <= |s| && s[r.value.1 - 1] == '"'
    ensures r.Some? ==> forall i | 0 <= i < r.value.1 :: s[i] != '\n'
  {
    var p := RawPrefix(s);
    if p == 0 then None else
    var h := Hashes(s[p..]);
    if p + h < |s| && s[p + h] == '"' then
      assert forall i | p <= i < p + h :: s[i] == s[p..][i - p];
      Some((h, p + h + 1))
    else None
  }

  predicate HexDigit(c: char) {
    '0' <= c <= '9' || 'a' <= c <= 'f' || 'A' <= c <= 'F'
  }

  predicate AllHex(digits: string) {
    forall i | 0 <= i < |digits| :: HexDigit(digits[i])
  }

  function IndexOf(s: string, c: char): (r: Option<nat>)
    ensures r.Some? ==> r.value < |s| && s[r.value] == c && forall i | 0 <= i < r.value :: s[i] != c
    ensures r.None? ==> c !in s
  {
    if s == "" then None
    else if s[0] == c then Some(0)
    else match IndexOf(s[1..], c) case Some(i) => Some(i + 1) case None => None
  }

  predicate QuoteAt(s: string, i: nat) {
    i < |s| && s[i] == '\''
  }

  /** The length of the character literal a text starts with. */
  function CharLiteralLength(s: string): Option<nat> {
    if !QuoteAt(s, 0) || |s| < 2 then None
    else if s[1] != '\\' then (if QuoteAt(s, 2) then Some(3) else None)
    else if |s| < 3 then None
    else if s[2] == 'x' then
      (if |s| > 4 && HexDigit(s[3]) && HexDigit(s[4]) && QuoteAt(s, 5) then Some(6) else None)
    else if s[2] == 'u' then
      (if |s| > 3 && s[3] == '{' then
         match IndexOf(s[4..], '}')
         case None => None
         case Some(close) =>
           if 1 <= close <= 6 && AllHex(s[4..4 + close]) && QuoteAt(s, 4 + close)
           then Some(5 + close) else None
       else None)
    else (if QuoteAt(s, 3) then Some(4) else None)
  }

  predicate Opens(s: string) {
    || "//" <= s
    || "/*" <= s
    || RawOpening(s).Some?
    || "b\"" <= s
    || "\"" <= s
    || CharLiteralLength(s).Some?
  }

  // ---------------------------------------------------------------------
  // The scanner as a function of what is left
  // ---------------------------------------------------------------------

  function Blank(c: char): char {
    if c == '\n' then '\n' else ' '
  }

  function Spaces(n: nat): (r: string)
    ensures |r| == n && forall i | 0 <= i < n :: r[i] == ' '
  {
    seq(n, i => ' ')
  }

  datatype Step = Step(consumed: nat, emitted: string, mode: Mode)

  function NormalStep(s: string): Step
    requires s != ""
  {
    if "//" <= s then Step(2, "  ", LineComment)
    else if "/*" <= s then Step(2, "  ", BlockComment(1))
    else if RawOpening(s).Some? then Step(RawOpening(s).value.1, Spaces(RawOpening(s).value.1),
                                          RawString(RawOpening(s).value.0))
    else if "b\"" <= s then Step(2, "  ", StringLiteral)
    else if s[0] == '"' then Step(1, " ", StringLiteral)
    else if CharLiteralLength(s).Some? then Step(1, " ", CharLiteral)
    else Step(1, [s[0]], Normal)
  }

  /** A literal with backslash escapes, closed by `quote`. */
  function QuotedStep(s: string, quote: char, mode: Mode): Step
    requires s != ""
  {
    if s[0] == '\\' then
      (if |s| > 1 then Step(2, [' ', Blank(s[1])], mode) else Step(1, " ", mode))
    else if s[0] == quote then Step(1, " ", Normal)
    else Step(1, [Blank(s[0])], mode)
  }

  function OneStep(s: string, mode: Mode): (r: Step)
    requires s != ""
    ensures 1 <= r.consumed <= |s| && |r.emitted| == r.consumed
  {
    match mode
    case Normal => NormalStep(s)
    case LineComment => if s[0] == '\n' then Step(1, "\n", Normal) else Step(1, " ", LineComment)
    case BlockComment(depth) =>
      if "/*" <= s then Step(2, "  ", BlockComment(depth + 1))
      else if "*/" <= s then Step(2, "  ", if depth <= 1 then Normal else BlockComment(depth - 1))
      else Step(1, [Blank(s[0])], mode)
    case StringLiteral => QuotedStep(s, '"', mode)
    case CharLiteral => QuotedStep(s, '\'', mode)
    case RawString(hashes) =>
      if s[0] == '"' && hashes <= Hashes(s[1..]) then Step(1 + hashes, Spaces(1 + hashes), Normal)
      else Step(1, [Blank(s[0])], mode)
  }

  /** What the scanner emits for the rest `s` of a source when it is in `mode`. */
  function Scan(s: string, mode: Mode): string
    decreases |s|
  {
    if s == "" then "" else
    var step := OneStep(s, mode);
    step.emitted + Scan(s[step.consumed..], step.mode)
  }

  function Stripped(source: string): string {
    Scan(source, Normal)
  }

  // ---------------------------------------------------------------------
  // Character by character
  // ---------------------------------------------------------------------

  /** An emitted character is the source's own or a space; newlines stay, and a double quote never does. */
  predicate Masks(out: char, c: char) {
    && (out == c || out == ' ')
    && (out == '\n' <==> c == '\n')
    && out != '"'
  }

  lemma {:induction false} StepMasks(s: string, mode: Mode)
    requires s != ""
    ensures var step := OneStep(s, mode); forall k | 0 <= k < step.consumed :: Masks(step.emitted[k], s[k])
  {
    var step := OneStep(s, mode);
    if mode.RawString? && s[0] == '"' && mode.hashes <= Hashes(s[1..]) {
      forall k | 0 <= k < step.consumed
        ensures Masks(step.emitted[k], s[k])
      {
        assert k > 0 ==> s[k] == s[1..][k - 1];
      }
    }
  }

  /** One character out for every character in, each one masked. */
  lemma {:induction false} ScanMasks(s: string, mode: Mode)
    ensures |Scan(s, mode)| == |s|
    ensures forall k | 0 <= k < |s| :: Masks(Scan(s, mode)[k], s[k])
    decreases |s|
  {
    if s != "" {
      var step := OneStep(s, mode);
      StepMasks(s, mode);
      ScanMasks(s[step.consumed..], step.mode);
      forall k | 0 <= k < |s|
        ensures |Scan(s, mode)| == |s| && Masks(Scan(s, mode)[k], s[k])
      {
        if k >= step.consumed {
          assert Scan(s, mode)[k] == Scan(s[step.consumed..], step.mode)[k - step.consumed];
        }
      }
    }
  }

  // ---------------------------------------------------------------------
  // What is left opens nothing
  // ---------------------------------------------------------------------

  predicate IsBlank(c: char) {
    c == ' ' || c == '\n'
  }

  /** Outside code everything is blanked, and what opens a literal or comment is blanked too. */
  lemma {:induction false} BlankSteps(s: string, mode: Mode)
    requires s != "" && (!mode.Normal? || Opens(s))
    ensures var step := OneStep(s, mode); forall k | 0 <= k < step.consumed :: IsBlank(step.emitted[k])
  {
  }

  /** A character that is not blanked was read as code. */
  lemma {:induction false} KeptIsCode(s: string, mode: Mode, out: string, k: nat)
    requires out == Scan(s, mode) && k < |s| == |out| && !IsBlank(out[k])
    ensures out[k..] == Scan(s[k..], Normal)
    decreases |s|
  {
    var step := OneStep(s, mode);
    var rest := s[step.consumed..];
    var restOut := Scan(rest, step.mode);
    ScanMasks(rest, step.mode);
    if !mode.Normal? || Opens(s) {
      BlankSteps(s, mode);
    }
    if k < step.consumed {
      assert s[0..] == s && out[0..] == out;
    } else {
      var j := k - step.consumed;
      assert out[k] == restOut[j];
      KeptIsCode(rest, step.mode, restOut, j);
      assert rest[j..] == s[k..];
      assert out[k..] == restOut[j..];
    }
  }

  /** ... at a place where nothing opens. */
  lemma {:induction false} KeptOpensNothing(s: string, out: string)
    requires s != "" && out == Scan(s, Normal) && |out| == |s| && !IsBlank(out[0])
    ensures !Opens(s)
  {
    if Opens(s) {
      BlankSteps(s, Normal);
    }
  }

  /** Code is emitted as it is. */
  lemma {:induction false} CodeIsKept(s: string)
    requires s != "" && !Opens(s)
    ensures Scan(s, Normal) == [s[0]] + Scan(s[1..], Normal)
  {
  }

  /** After an opening, at least one more character is blanked. */
  lemma {:induction false} OpeningBlanksTwo(s: string)
    requires |s| >= 2 && Opens(s)
    ensures |Scan(s, Normal)| == |s| && IsBlank(Scan(s, Normal)[1])
  {
    var step := NormalStep(s);
    var rest := s[step.consumed..];
    ScanMasks(s, Normal);
    ScanMasks(rest, step.mode);
    BlankSteps(s, Normal);
    if step.consumed == 1 {
      BlankSteps(rest, step.mode);
      assert Scan(s, Normal)[1] == Scan(rest, step.mode)[0];
    }
  }

  /** A quote and a backslash read as code are followed by a kept character, or by two blanks. */
  lemma {:induction false} AfterQuoteAndBackslash(s: string)
    requires |s| >= 2 && s[0] == '\'' && s[1] == '\\' && !Opens(s)
    ensures var out := Scan(s, Normal);
            && |out| == |s| && out[0] == s[0] && out[1] == s[1]
            && (|s| >= 3 ==> out[2] == s[2] || (IsBlank(out[2]) && (|s| >= 4 ==> IsBlank(out[3]))))
  {
    var out := Scan(s, Normal);
    ScanMasks(s, Normal);
    CodeIsKept(s);
    assert !Opens(s[1..]);
    CodeIsKept(s[1..]);
    assert s[1..][1..] == s[2..];
    assert out == ['\'', '\\'] + Scan(s[2..], Normal);
    if |s| >= 3 {
      ScanMasks(s[2..], Normal);
      if Opens(s[2..]) {
        BlankSteps(s[2..], Normal);
        if |s| >= 4 {
          OpeningBlanksTwo(s[2..]);
        }
      } else {
        CodeIsKept(s[2..]);
      }
    }
  }

  /** A quote that is not a character literal in the source is not one in the output either. */
  lemma {:induction false} NoNewCharLiteral(s: string)
    requires s != "" && s[0] == '\'' && !Opens(s)
    ensures CharLiteralLength(Scan(s, Normal)).None?
  {
    var out := Scan(s, Normal);
    ScanMasks(s, Normal);
    CodeIsKept(s);
    assert CharLiteralLength(s).None?;
    if |s| >= 2 && s[1] == '\\' {
      AfterQuoteAndBackslash(s);
      hide Scan, Opens, RawOpening;
      if |s| >= 3 && out[2] == 'u' {
        UnicodeEscapesAreNotRecognised(out);
      }
    } else {
      hide Scan, Opens, RawOpening;
      assert |s| >= 3 ==> Masks(out[1], s[1]) && Masks(out[2], s[2]);
    }
  }

  /** The length computed for a unicode escape ends on its brace, so such a literal is never recognised. */
  lemma {:induction false} UnicodeEscapesAreNotRecognised(s: string)
    requires |s| >= 3 && s[1] == '\\' && s[2] == 'u'
    ensures CharLiteralLength(s).None?
  {
    if |s| > 3 && s[3] == '{' && IndexOf(s[4..], '}').Some? {
      var close := IndexOf(s[4..], '}').value;
      assert s[4 + close] == s[4..][close] == '}';
    }
  }

  predicate Inert(s: string) {
    forall k | 0 <= k < |s| :: !Opens(s[k..])
  }

  lemma {:induction false} NoQuoteNoLiteral(s: string)
    requires '"' !in s
    ensures RawOpening(s).None? && !("b\"" <= s) && !("\"" <= s)
  {
    assert |s| > 0 ==> s[0] != '"';
    assert |s| > 1 ==> s[1] != '"';
  }

  /** The output of code at which nothing opens does not open anything. */
  lemma {:induction false} CodeOutputOpensNothing(s: string, out: string)
    requires s != "" && !Opens(s) && out == Scan(s, Normal)
    ensures !Opens(out)
  {
    ScanMasks(s, Normal);
    NoQuoteNoLiteral(out);
    CodeIsKept(s);
    if s[0] == '\'' {
      NoNewCharLiteral(s);
    }
  }

  lemma {:induction false} NothingOpensInOutput(source: string, k: nat)
    requires k < |source| && |Stripped(source)| == |source|
    ensures !Opens(Stripped(source)[k..])
  {
    var out := Stripped(source);
    ScanMasks(source, Normal);
    var tail := out[k..];
    if !IsBlank(out[k]) {
      KeptIsCode(source, Normal, out, k);
      KeptOpensNothing(source[k..], tail);
      CodeOutputOpensNothing(source[k..], tail);
    } else {
      forall i | 0 <= i < |tail|
        ensures tail[i] != '"'
      {
        assert Masks(out[k + i], source[k + i]);
      }
      NoQuoteNoLiteral(tail);
      assert tail[0] == out[k];
    }
  }

  /** Nothing in the output opens a comment or a literal. */
  lemma {:induction false} StrippedIsInert(source: string)
    ensures Inert(Stripped(source))
  {
    ScanMasks(source, Normal);
    forall k | 0 <= k < |Stripped(source)|
      ensures !Opens(Stripped(source)[k..])
    {
      NothingOpensInOutput(source, k);
    }
  }

  lemma {:induction false} InertIsFixed(s: string)
    requires Inert(s)
    ensures Stripped(s) == s
    decreases |s|
  {
    if s != "" {
      assert s[0..] == s && !Opens(s[0..]);
      forall k | 0 <= k < |s[1..]|
        ensures !Opens(s[1..][k..])
      {
        assert s[1..][k..] == s[k + 1..];
      }
      InertIsFixed(s[1..]);
      CodeIsKept(s);
    }
  }

  /** Stripping twice is stripping once. */
  lemma {:induction false} StrippingIsIdempotent(source: string)
    ensures Stripped(Stripped(source)) == Stripped(source)
  {
    StrippedIsInert(source);
    InertIsFixed(Stripped(source));
  }

  // ---------------------------------------------------------------------
  // The loop
  // ---------------------------------------------------------------------

  /** Recognises the opening of a raw string at a position, hash by hash. */
  method RawStart(bytes: string, at: nat) returns (r: Option<(nat, nat)>)
    requires at <= |bytes|
    ensures r == RawOpening(bytes[at..])
  {
    var s := bytes[at..];
    if RawPrefix(s) == 0 {
      return None;
    }
    var i := at + RawPrefix(s);
    var hashes := 0;
    assert bytes[i..] == s[RawPrefix(s)..];
    while i < |bytes| && bytes[i] == '#'
      invariant at + RawPrefix(s) <= i <= |bytes|
      invariant i == at + RawPrefix(s) + hashes
      invariant Hashes(s[RawPrefix(s)..]) == hashes + Hashes(bytes[i..])
    {
      assert bytes[i..][1..] == bytes[i + 1..];
      hashes := hashes + 1;
      i := i + 1;
    }
    if i < |bytes| && bytes[i] == '"' {
      return Some((hashes, i + 1 - at));
    }
    return None;
  }

  /** Whether enough hashes follow a quote to close a raw string. */
  method ClosesRawString(bytes: string, at: nat, hashes: nat) returns (closes: bool)
    requires at < |bytes|
    ensures closes <==> hashes <= Hashes(bytes[at..][1..])
  {
    var tail := bytes[at..][1..];
    assert tail == bytes[at + 1..];
    for j := 0 to hashes
      invariant j <= Hashes(tail)
    {
      if at + 1 + j >= |bytes| || bytes[at + 1 + j] != '#' {
        return false;
      }
      assert tail[j] == '#';
    }
    return true;
  }

  lemma {:induction false} ScanUnfolds(s: string, mode: Mode)
    requires s != ""
    ensures Scan(s, mode) == OneStep(s, mode).emitted + Scan(s[OneStep(s, mode).consumed..], OneStep(s, mode).mode)
  {
  }

  /** `out` is what has been emitted for the first `i` characters, and scanning on from there completes the result. */
  ghost predicate OnTrack(source: string, i: nat, mode: Mode, out: string) {
    i <= |source| && out + Scan(source[i..], mode) == Stripped(source)
  }

  lemma {:induction false} StaysOnTrack(source: string, i: nat, mode: Mode, out: string)
    requires i < |source| && OnTrack(source, i, mode, out)
    ensures var step := OneStep(source[i..], mode);
            i + step.consumed <= |source| && OnTrack(source, i + step.consumed, step.mode, out + step.emitted)
  {
    var s := source[i..];
    var step := OneStep(s, mode);
    ScanUnfolds(s, mode);
    assert s[step.consumed..] == source[i + step.consumed..];
    var rest := Scan(s[step.consumed..], step.mode);
    assert out + (step.emitted + rest) == (out + step.emitted) + rest;
  }

  lemma {:induction false} TrackEnds(source: string)
    ensures OnTrack(source, 0, Normal, "")
    ensures forall mode, out | OnTrack(source, |source|, mode, out) :: out == Stripped(source)
  {
    assert source[0..] == source && source[|source|..] == "";
    assert "" + Stripped(source) == Stripped(source);
  }

  /** Blanks comments and literals, one character out for every character in. */
  method StripForScanning(source: string) returns (out: string)
    ensures out == Stripped(source)
  {
    out := "";
    var i := 0;
    var mode := Normal;
    TrackEnds(source);
    while i < |source|
      invariant 0 <= i <= |source| && OnTrack(source, i, mode, out)
      decreases |source| - i
    {
      hide Scan, OnTrack, OneStep;
      StaysOnTrack(source, i, mode, out);
      out, i, mode := ScanStep(source, i, out, mode);
    }
  }

  /** One step in any mode. */
  method ScanStep(source: string, at: nat, sofar: string, mode: Mode) returns (out: string, i: nat, next: Mode)
    requires at < |source|
    ensures var step := OneStep(source[at..], mode);
            out == sofar + step.emitted && i == at + step.consumed && next == step.mode
  {
    hide RawOpening, CharLiteralLength, NormalStep, QuotedStep, Hashes;
    match mode {
      case Normal =>
        out, i, next := ScanCode(source, at, sofar);
      case LineComment =>
        out, i, next := sofar, at, mode;
        if source[i] == '\n' {
          out, i, next := out + "\n", i + 1, Normal;
        } else {
          out, i := out + " ", i + 1;
        }
      case BlockComment(depth) =>
        out, i, next := ScanBlockComment(source, at, sofar, depth);
      case StringLiteral =>
        out, i, next := ScanQuoted(source, at, sofar, '"', mode);
      case CharLiteral =>
        out, i, next := ScanQuoted(source, at, sofar, '\'', mode);
      case RawString(hashes) =>
        out, i, next := ScanRawString(source, at, sofar, hashes);
    }
  }

  /** One step inside a block comment that is `depth` comments deep. */
  method ScanBlockComment(source: string, at: nat, sofar: string, depth: nat) returns (out: string, i: nat, next: Mode)
    requires at < |source|
    ensures var step := OneStep(source[at..], BlockComment(depth));
            out == sofar + step.emitted && i == at + step.consumed && next == step.mode
  {
    var s := source[at..];
    out, i, next := sofar, at, BlockComment(depth);
    if "/*" <= s {
      out, i, next := out + "  ", i + 2, BlockComment(depth + 1);
    } else if "*/" <= s {
      out, i := out + "  ", i + 2;
      next := if depth <= 1 then Normal else BlockComment(depth - 1);
    } else {
      out, i := out + [Blank(source[i])], i + 1;
    }
  }

  /** One step in code. */
  method ScanCode(source: string, at: nat, sofar: string) returns (out: string, i: nat, next: Mode)
    requires at < |source|
    ensures var step := NormalStep(source[at..]);
            out == sofar + step.emitted && i == at + step.consumed && next == step.mode
  {
    var s := source[at..];
    out, i, next := sofar, at, Normal;
    var raw := RawStart(source, i);
    if "//" <= s {
      out, i, next := out + "  ", i + 2, LineComment;
    } else if "/*" <= s {
      out, i, next := out + "  ", i + 2, BlockComment(1);
    } else if raw.Some? {
      out, i, next := out + Spaces(raw.value.1), i + raw.value.1, RawString(raw.value.0);
    } else if "b\"" <= s {
      out, i, next := out + "  ", i + 2, StringLiteral;
    } else if source[i] == '"' {
      out, i, next := out + " ", i + 1, StringLiteral;
    } else if CharLiteralLength(s).Some? {
      out, i, next := out + " ", i + 1, CharLiteral;
    } else {
      out, i := out + [source[i]], i + 1;
    }
  }

  /** One step inside a raw string. */
  method ScanRawString(source: string, at: nat, sofar: string, hashes: nat) returns (out: string, i: nat, next: Mode)
    requires at < |source|
    ensures var step := OneStep(source[at..], RawString(hashes));
            out == sofar + step.emitted && i == at + step.consumed && next == step.mode
  {
    out, i, next := sofar, at, RawString(hashes);
    if source[i] == '"' {
      var closes := ClosesRawString(source, i, hashes);
      if closes {
        out, i := out + " ", i + 1;
        out, i, next := out + Spaces(hashes), i + hashes, Normal;
        assert " " + Spaces(hashes) == Spaces(1 + hashes);
        return;
      }
    }
    out, i := out + [Blank(source[i])], i + 1;
  }

  /** One step inside a literal with backslash escapes. */
  method ScanQuoted(source: string, at: nat, sofar: string, quote: char, mode: Mode)
    returns (out: string, i: nat, next: Mode)
    requires at < |source|
    ensures var step := QuotedStep(source[at..], quote, mode);
            out == sofar + step.emitted && i == at + step.consumed && next == step.mode
  {
    out, i, next := sofar, at, mode;
    if source[i] == '\\' {
      out, i := out + " ", i + 1;
      if i < |source| {
        out, i := out + [Blank(source[i])], i + 1;
      }
    } else if source[i] == quote {
      out, i, next := out + " ", i + 1, Normal;
    } else {
      out, i := out + [Blank(source[i])], i + 1;
    }
  }
}
