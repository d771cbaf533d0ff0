/** The symbols that link a parameter to a multiplex lane, written and read. */
module MultiplexLinks {
  import opened UiTypes
  import opened Text

  const PREFIX := "@multiplex"

  datatype Target =
    | Index(axisId: string, zeroBased: bool)
    | ListValue(axisId: string, symbol: string)

  /** The index symbols and the list symbols of an axis. */
  function LinkSymbol(t: Target): string {
    match t
    case Index(axisId, zeroBased) => PREFIX + ":" + axisId + ":" + (if zeroBased then "index0" else "index")
    case ListValue(axisId, symbol) => PREFIX + ":" + axisId + ":list:" + symbol
  }

  /** The link symbols, as they are written. */
  lemma {:induction false} SymbolsAsWritten(axisId: string, symbol: string)
    ensures LinkSymbol(Index(axisId, false)) == "@multiplex:" + axisId + ":index"
    ensures LinkSymbol(Index(axisId, true)) == "@multiplex:" + axisId + ":index0"
    ensures LinkSymbol(ListValue(axisId, symbol)) == "@multiplex:" + axisId + ":list:" + symbol
  {
    assert PREFIX + ":" == "@multiplex:";
    assert ":" + "index" == ":index" && ":" + "index0" == ":index0";
    Joined("@multiplex:" + axisId, ":", "index");
    Joined("@multiplex:" + axisId, ":", "index0");
  }

  lemma {:induction false} Joined(a: string, b: string, c: string)
    ensures a + b + c == a + (b + c)
  {
  }

  function StripPrefix(s: string, prefix: string): (r: Option<string>)
    ensures r.Some? <==> prefix <= s
    ensures r.Some? ==> s == prefix + r.value
  {
    if prefix <= s then Some(s[|prefix|..]) else None
  }

  /** A text cut at the first `c`. */
  function SplitOnce(s: string, c: char): (r: Option<(string, string)>)
    ensures r.Some? <==> c in s
    ensures r.Some? ==> s == r.value.0 + [c] + r.value.1 && c !in r.value.0
  {
    if s == "" then None
    else if s[0] == c then Some(("", s[1..]))
    else match SplitOnce(s[1..], c)
         case None => None
         case Some((before, after)) => Some(([s[0]] + before, after))
  }

  function ParseTarget(axisId: string, target: string): Option<Target> {
    if target == "index" then Some(Index(axisId, false))
    else if target == "index0" then Some(Index(axisId, true))
    else match StripPrefix(target, "list:")
         case None => None
         case Some(list) => if list == "" then None else Some(ListValue(axisId, list))
  }

  function Parse(symbol: string): Option<Target> {
    match StripPrefix(Trim(symbol), PREFIX)
    case None => None
    case Some(tail) =>
      match StripPrefix(tail, ":")
      case None => None
      case Some(suffix) =>
        match SplitOnce(suffix, ':')
        case None => None
        case Some((axisId, target)) => if axisId == "" then None else ParseTarget(axisId, target)
  }

  /** The targets whose symbols can be read back. */
  predicate Linkable(t: Target) {
    && t.axisId != "" && ':' !in t.axisId
    && (t.ListValue? ==> t.symbol != "" && !Whitespace(t.symbol[|t.symbol| - 1]))
  }

  function Suffix(t: Target): string {
    if t.Index? then (if t.zeroBased then "index0" else "index") else "list:" + t.symbol
  }

  lemma {:induction false} SymbolParts(t: Target)
    ensures LinkSymbol(t) == PREFIX + (":" + (t.axisId + ":" + Suffix(t)))
  {
  }

  lemma {:induction false} SplitAtFirst(before: string, after: string, c: char)
    requires c !in before
    ensures SplitOnce(before + [c] + after, c) == Some((before, after))
    decreases |before|
  {
    var s := before + [c] + after;
    if before == "" {
      assert s == [c] + after;
    } else {
      assert s[0] == before[0] && before[0] in before;
      assert s[1..] == before[1..] + [c] + after;
      SplitAtFirst(before[1..], after, c);
      assert [s[0]] + before[1..] == before;
    }
  }

  lemma {:induction false} SymbolIsTrimmed(t: Target)
    requires Linkable(t)
    ensures Trimmed(LinkSymbol(t))
  {
  }

  lemma {:induction false} ParseSuffix(t: Target)
    requires t.ListValue? ==> t.symbol != ""
    ensures ParseTarget(t.axisId, Suffix(t)) == Some(t)
  {
    if t.ListValue? {
      assert Suffix(t)[0] == 'l';
    }
  }

  lemma {:induction false} ParseOfSymbol(t: Target)
    requires Linkable(t)
    ensures Parse(LinkSymbol(t)) == Some(t)
  {
    SymbolIsTrimmed(t);
    SymbolParts(t);
    SplitAtFirst(t.axisId, Suffix(t), ':');
    ParseSuffix(t);
  }

  /** What is read is a linkable target, and the text was its symbol. */
  lemma {:induction false} SymbolOfParse(symbol: string)
    ensures Parse(symbol).Some? ==> Linkable(Parse(symbol).value) && LinkSymbol(Parse(symbol).value) == Trim(symbol)
  {
    hide Trim, SplitOnce, Whitespace;
    if Parse(symbol).Some? {
      var t := Parse(symbol).value;
      SymbolParts(t);
      var s := Trim(symbol);
      assert s == PREFIX + (":" + (t.axisId + ":" + Suffix(t)));
      if t.ListValue? {
        assert s[|s| - 1] == t.symbol[|t.symbol| - 1];
      }
    }
  }

  /** Reading inverts writing, both ways: a text reads as a target exactly when it is that target's symbol, white space
      around it aside, and the target can be linked to. */
  lemma {:induction false} ReadingInvertsWriting(symbol: string, t: Target)
    ensures Parse(symbol) == Some(t) <==> Linkable(t) && Trim(symbol) == LinkSymbol(t)
  {
    if Parse(symbol) == Some(t) {
      SymbolOfParse(symbol);
    }
    if Linkable(t) && Trim(symbol) == LinkSymbol(t) {
      ParseOfSymbol(t);
      SymbolIsTrimmed(t);
      assert Parse(symbol) == Parse(LinkSymbol(t));
    }
  }

  /** A symbol reads back as its own target for exactly the linkable targets. */
  lemma {:induction false} RoundTrip(t: Target)
    ensures Parse(LinkSymbol(t)) == Some(t) <==> Linkable(t)
  {
    if Linkable(t) {
      ParseOfSymbol(t);
    } else if Parse(LinkSymbol(t)) == Some(t) {
      SymbolOfParse(LinkSymbol(t));
    }
  }

  /** Symbols of different linkable targets never collide. */
  lemma {:induction false} SymbolsDoNotCollide(a: Target, b: Target)
    requires Linkable(a) && Linkable(b) && LinkSymbol(a) == LinkSymbol(b)
    ensures a == b
  {
    ParseOfSymbol(a);
    ParseOfSymbol(b);
  }
}
