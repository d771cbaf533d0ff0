/** The scanner against a grammar: a source written token by token is stripped token by token. */
module ScannerGrammar {
  import opened UiTypes
  import opened SourceScanner

  /** The inside of a block comment: characters and nested comments. */
  datatype Piece = Plain(c: char) | Nested(body: seq<Piece>)

  datatype Quoted = Bare(c: char) | Escaped(c: char)

  /** What a character literal quotes. */
  datatype Form =
    | Simple(quoted: Quoted)
    | Hex(high: char, low: char)
    | Unicode(digits: string)

  datatype Token =
    | Code(c: char)
    | Lifetime(name: string)
    | Line(text: string)
    | LastLine(text: string)
    | Block(body: seq<Piece>)
    | Text(isBytes: bool, chars: seq<Quoted>)
    | Raw(isBytes: bool, hashes: nat, text: string)
    | Character(form: Form)

  // ---------------------------------------------------------------------
  // Writing tokens
  // ---------------------------------------------------------------------

  function WritePiece(p: Piece): string {
    match p
    case Plain(c) => [c]
    case Nested(body) => "/*" + WritePieces(body) + "*/"
  }

  function WritePieces(ps: seq<Piece>): string {
    if ps == [] then "" else WritePiece(ps[0]) + WritePieces(ps[1..])
  }

  function WriteQuoted(q: Quoted): string {
    match q case Bare(c) => [c] case Escaped(c) => ['\\', c]
  }

  function WriteAllQuoted(qs: seq<Quoted>): string {
    if qs == [] then "" else WriteQuoted(qs[0]) + WriteAllQuoted(qs[1..])
  }

  function WriteForm(form: Form): string {
    match form
    case Simple(q) => WriteQuoted(q)
    case Hex(high, low) => ['\\', 'x', high, low]
    case Unicode(digits) => "\\u{" + digits + "}"
  }

  function HashRun(n: nat): (r: string)
    ensures |r| == n && forall i | 0 <= i < n :: r[i] == '#'
  {
    seq(n, i => '#')
  }

  function Closing(hashes: nat): string {
    "\"" + HashRun(hashes)
  }

  function RawHead(isBytes: bool, hashes: nat): string {
    (if isBytes then "br" else "r") + HashRun(hashes) + "\""
  }

  function Write(t: Token): string {
    match t
    case Code(c) => [c]
    case Lifetime(name) => "'" + name
    case Line(text) => "//" + text + "\n"
    case LastLine(text) => "//" + text
    case Block(body) => "/*" + WritePieces(body) + "*/"
    case Text(isBytes, chars) => (if isBytes then "b\"" else "\"") + WriteAllQuoted(chars) + "\""
    case Raw(isBytes, hashes, text) => RawHead(isBytes, hashes) + text + Closing(hashes)
    case Character(form) => "'" + WriteForm(form) + "'"
  }

  function WriteAll(ts: seq<Token>): string {
    if ts == [] then "" else Write(ts[0]) + WriteAll(ts[1..])
  }

  // ---------------------------------------------------------------------
  // What stripping should leave
  // ---------------------------------------------------------------------

  function Blanks(s: string): (r: string)
    ensures |r| == |s| && forall i | 0 <= i < |s| :: r[i] == Blank(s[i])
  {
    seq(|s|, i requires 0 <= i < |s| => Blank(s[i]))
  }

  predicate IsCode(t: Token) {
    t.Code? || t.Lifetime?
  }

  /** Code stays, lifetimes included; everything else is blanked, newlines aside. */
  function Mask(t: Token): string {
    if IsCode(t) then Write(t) else Blanks(Write(t))
  }

  function MaskAll(ts: seq<Token>): string {
    if ts == [] then "" else Mask(ts[0]) + MaskAll(ts[1..])
  }

  // ---------------------------------------------------------------------
  // Unambiguous writing
  // ---------------------------------------------------------------------

  /** No character of a comment forms a comment delimiter with what follows it. */
  predicate Unambiguous(ps: seq<Piece>) {
    ps == [] ||
    (&& (match ps[0]
         case Plain(c) =>
           var here := [c] + WritePieces(ps[1..]) + "*/";
           !("/*" <= here) && !("*/" <= here)
         case Nested(body) => Unambiguous(body))
     && Unambiguous(ps[1..]))
  }

  predicate WellQuoted(q: Quoted, quote: char) {
    q.Bare? ==> q.c != quote && q.c != '\\'
  }

  /** A literal as the language has it: one character, an escaped one,
      two hexadecimal digits, or up to six in braces. */
  predicate WellFormed(form: Form) {
    match form
    case Simple(q) => WellQuoted(q, '\'') && (q.Escaped? ==> q.c != 'x' && q.c != 'u')
    case Hex(high, low) => HexDigit(high) && HexDigit(low)
    case Unicode(digits) => 1 <= |digits| <= 6 && AllHex(digits)
  }

  /** No quote inside a raw string is followed by enough hashes to close it. */
  predicate Unclosed(text: string, hashes: nat) {
    forall i | 0 <= i < |text| && text[i] == '"' :: hashes > Hashes((text + Closing(hashes))[i + 1..])
  }

  /** What the scanner takes for a character literal between two quotes: one character that is no backslash, or an
      escape that is not unicode. */
  predicate Readable(form: Form) {
    match form
    case Simple(Bare(c)) => c != '\\'
    case Simple(Escaped(c)) => c != 'x' && c != 'u'
    case Hex(high, low) => HexDigit(high) && HexDigit(low)
    case Unicode(_) => false
  }

  ghost predicate BeginsLiteral(s: string) {
    exists form :: Readable(form) && "'" + WriteForm(form) + "'" <= s
  }

  ghost predicate BeginsRaw(s: string) {
    exists isBytes, hashes: nat :: RawHead(isBytes, hashes) <= s
  }

  /** The text begins as some comment or literal is written. */
  ghost predicate BeginsToken(s: string) {
    "//" <= s || "/*" <= s || "\"" <= s || "b\"" <= s || BeginsRaw(s) || BeginsLiteral(s)
  }

  predicate Letter(c: char) {
    'a' <= c <= 'z' || 'A' <= c <= 'Z' || c == '_'
  }

  predicate NameChar(c: char) {
    Letter(c) || '0' <= c <= '9'
  }

  predicate Identifier(name: string) {
    name != "" && Letter(name[0]) && forall i | 0 <= i < |name| :: NameChar(name[i])
  }

  /** The name ends here, and neither a quote nor what could make the end of the name the start of a string follows. */
  predicate EndsName(rest: string) {
    rest == "" || (!NameChar(rest[0]) && rest[0] != '\'' && rest[0] != '"' && rest[0] != '#')
  }

  /** `t` is a token of the language as it is written, when `rest` follows it. */
  ghost predicate WellWritten(t: Token, rest: string) {
    match t
    case Code(c) => !BeginsToken([c] + rest)
    case Lifetime(name) => Identifier(name) && EndsName(rest)
    case Line(text) => '\n' !in text
    case LastLine(text) => '\n' !in text && rest == ""
    case Block(body) => Unambiguous(body)
    case Text(_, chars) => forall i | 0 <= i < |chars| :: WellQuoted(chars[i], '"')
    case Raw(_, hashes, text) => Unclosed(text, hashes)
    case Character(form) => WellFormed(form)
  }

  ghost predicate Lexes(ts: seq<Token>) {
    ts == [] || (WellWritten(ts[0], WriteAll(ts[1..])) && Lexes(ts[1..]))
  }

  predicate IsUnicodeEscape(t: Token) {
    t.Character? && t.form.Unicode?
  }

  // ---------------------------------------------------------------------
  // Token by token
  // ---------------------------------------------------------------------

  /** Scanning `s` in mode `from` blanks all of it and goes on in mode `to`, when `rest` follows. */
  predicate Blanked(s: string, rest: string, from: Mode, to: Mode) {
    Scan(s + rest, from) == Blanks(s) + Scan(rest, to)
  }

  /** Two stretches of text that are blanked one after the other. */
  lemma {:induction false} InTurn(a: string, b: string, rest: string, from: Mode, via: Mode, to: Mode)
    requires Blanked(a, b + rest, from, via) && Blanked(b, rest, via, to)
    ensures Blanked(a + b, rest, from, to)
  {
    hide Scan;
    assert a + b + rest == a + (b + rest);
    assert Blanks(a + b) == Blanks(a) + Blanks(b);
    assert Blanks(a) + (Blanks(b) + Scan(rest, to)) == Blanks(a) + Blanks(b) + Scan(rest, to);
  }

  /** A stretch that one step of the scanner consumes. */
  lemma {:induction false} InOneStep(head: string, rest: string, from: Mode, to: Mode)
    requires head != "" && OneStep(head + rest, from) == Step(|head|, Blanks(head), to)
    ensures Blanked(head, rest, from, to)
  {
  }

  lemma {:induction false} LineBody(text: string, rest: string)
    requires '\n' !in text
    ensures Blanked(text + "\n", rest, LineComment, Normal)
    decreases |text|
  {
    hide Blanked;
    if text == "" {
      InOneStep("\n", rest, LineComment, Normal);
      assert text + "\n" == "\n";
    } else {
      var c, tail := [text[0]], text[1..];
      assert text[0] in text;
      LineBody(tail, rest);
      InOneStep(c, tail + "\n" + rest, LineComment, LineComment);
      InTurn(c, tail + "\n", rest, LineComment, LineComment, Normal);
      assert c + (tail + "\n") == text + "\n";
    }
  }

  /** A comment that the end of the source ends. */
  lemma {:induction false} LastLineBody(text: string)
    requires '\n' !in text
    ensures Blanked(text, "", LineComment, Normal)
    decreases |text|
  {
    hide Blanked;
    if text == "" {
      NothingLeft(LineComment);
    } else {
      var c, tail := [text[0]], text[1..];
      assert text[0] in text;
      LastLineBody(tail);
      InOneStep(c, tail, LineComment, LineComment);
      assert tail + "" == tail;
      InTurn(c, tail, "", LineComment, LineComment, Normal);
      assert c + tail == text;
    }
  }

  lemma {:induction false} NothingLeft(mode: Mode)
    ensures Blanked("", "", mode, Normal)
  {
  }

  function Outer(depth: nat): Mode {
    if depth <= 1 then Normal else BlockComment(depth - 1)
  }

  lemma {:induction false} Delimiter(rest: string, depth: nat)
    ensures Blanked("/*", rest, BlockComment(depth), BlockComment(depth + 1))
    ensures Blanked("*/", rest, BlockComment(depth), Outer(depth))
  {
    hide Blanked;
    assert ("/*" + rest)[0] == '/' && ("*/" + rest)[0] == '*';
    InOneStep("/*", rest, BlockComment(depth), BlockComment(depth + 1));
    InOneStep("*/", rest, BlockComment(depth), Outer(depth));
  }

  /** A character of a comment, seen with the two characters of lookahead that do not reach past the comment's end. */
  lemma {:induction false} CommentChar(c: char, inner: string, rest: string, depth: nat)
    requires !("/*" <= [c] + inner + "*/") && !("*/" <= [c] + inner + "*/")
    ensures Blanked([c], inner + "*/" + rest, BlockComment(depth), BlockComment(depth))
  {
  }

  /** The inside of a comment and its end, with every nested comment closed before it. */
  lemma {:induction false} CommentBody(ps: seq<Piece>, rest: string, depth: nat)
    requires Unambiguous(ps) && depth >= 1
    ensures Blanked(WritePieces(ps) + "*/", rest, BlockComment(depth), Outer(depth))
    decreases ps
  {
    hide Blanked;
    if ps == [] {
      Delimiter(rest, depth);
      assert WritePieces(ps) + "*/" == "*/";
    } else {
      var mode, inner := BlockComment(depth), WritePieces(ps[1..]) + "*/";
      CommentBody(ps[1..], rest, depth);
      PieceOfComment(ps[0], WritePieces(ps[1..]), rest, depth);
      InTurn(WritePiece(ps[0]), inner, rest, mode, mode, Outer(depth));
      assert WritePiece(ps[0]) + inner == WritePieces(ps) + "*/";
    }
  }

  lemma {:induction false} PieceOfComment(p: Piece, inner: string, rest: string, depth: nat)
    requires depth >= 1
    requires match p
             case Plain(c) => !("/*" <= [c] + inner + "*/") && !("*/" <= [c] + inner + "*/")
             case Nested(body) => Unambiguous(body)
    ensures Blanked(WritePiece(p), inner + "*/" + rest, BlockComment(depth), BlockComment(depth))
    decreases p
  {
    hide Blanked;
    match p {
      case Plain(c) => CommentChar(c, inner, rest, depth);
      case Nested(body) =>
        var mode, after, closed := BlockComment(depth), inner + "*/" + rest, WritePieces(body) + "*/";
        Delimiter(closed + after, depth);
        CommentBody(body, after, depth + 1);
        InTurn("/*", closed, after, mode, BlockComment(depth + 1), mode);
        assert "/*" + closed == WritePiece(p);
    }
  }

  lemma {:induction false} QuotedChar(q: Quoted, rest: string, quote: char, mode: Mode)
    requires WellQuoted(q, quote) && quote != '\\'
    requires (mode == StringLiteral && quote == '"') || (mode == CharLiteral && quote == '\'')
    ensures Blanked(WriteQuoted(q), rest, mode, mode)
  {
  }

  lemma {:induction false} ClosingQuote(quote: char, rest: string, mode: Mode)
    requires (mode == StringLiteral && quote == '"') || (mode == CharLiteral && quote == '\'')
    ensures Blanked([quote], rest, mode, Normal)
  {
  }

  lemma {:induction false} QuotedBody(qs: seq<Quoted>, rest: string)
    requires forall i | 0 <= i < |qs| :: WellQuoted(qs[i], '"')
    ensures Blanked(WriteAllQuoted(qs) + "\"", rest, StringLiteral, Normal)
    decreases |qs|
  {
    hide Blanked;
    if qs == [] {
      ClosingQuote('"', rest, StringLiteral);
      assert WriteAllQuoted(qs) + "\"" == "\"";
    } else {
      var head, inner := WriteQuoted(qs[0]), WriteAllQuoted(qs[1..]) + "\"";
      QuotedBody(qs[1..], rest);
      QuotedChar(qs[0], inner + rest, '"', StringLiteral);
      InTurn(head, inner, rest, StringLiteral, StringLiteral, Normal);
      assert head + inner == WriteAllQuoted(qs) + "\"";
    }
  }

  lemma {:induction false} HashesOfRun(n: nat, rest: string)
    ensures Hashes(HashRun(n) + rest) == n + Hashes(rest)
    decreases n
  {
    var s := HashRun(n) + rest;
    if n == 0 {
      assert s == rest;
    } else {
      assert s[0] == '#' && s[1..] == HashRun(n - 1) + rest;
      HashesOfRun(n - 1, rest);
    }
  }

  /** A run of hashes that ends inside a text is not made longer by what follows the text. */
  lemma {:induction false} HashesStay(s: string, rest: string)
    requires Hashes(s) < |s|
    ensures Hashes(s + rest) == Hashes(s)
    decreases |s|
  {
    assert (s + rest)[0] == s[0];
    if s[0] == '#' {
      assert (s + rest)[1..] == s[1..] + rest;
      HashesStay(s[1..], rest);
    }
  }

  lemma {:induction false} ClosingRaw(hashes: nat, rest: string)
    ensures Blanked(Closing(hashes), rest, RawString(hashes), Normal)
  {
  }

  lemma {:induction false} RawChar(c: char, tail: string, hashes: nat, rest: string)
    requires c == '"' ==> hashes > Hashes(tail + Closing(hashes))
    ensures Blanked([c], tail + Closing(hashes) + rest, RawString(hashes), RawString(hashes))
  {
    hide Blanked;
    var inner := tail + Closing(hashes);
    var s := [c] + (inner + rest);
    assert s[0] == c && s[1..] == inner + rest;
    if c == '"' {
      assert inner[|tail|] == '"';
      HashesStay(inner, rest);
    }
    InOneStep([c], inner + rest, RawString(hashes), RawString(hashes));
  }

  lemma {:induction false} UnclosedTail(text: string, hashes: nat)
    requires text != "" && Unclosed(text, hashes)
    ensures Unclosed(text[1..], hashes)
    ensures text[0] == '"' ==> hashes > Hashes(text[1..] + Closing(hashes))
  {
    hide Hashes;
    var tail, closing := text[1..], Closing(hashes);
    assert (text + closing)[0 + 1..] == tail + closing;
    forall i | 0 <= i < |tail| && tail[i] == '"'
      ensures hashes > Hashes((tail + closing)[i + 1..])
    {
      assert text[i + 1] == '"';
      assert (text + closing)[i + 1 + 1..] == (tail + closing)[i + 1..];
    }
  }

  lemma {:induction false} RawBody(text: string, hashes: nat, rest: string)
    requires Unclosed(text, hashes)
    ensures Blanked(text + Closing(hashes), rest, RawString(hashes), Normal)
    decreases |text|
  {
    hide Blanked, Unclosed, Hashes;
    var mode := RawString(hashes);
    if text == "" {
      ClosingRaw(hashes, rest);
      assert text + Closing(hashes) == Closing(hashes);
    } else {
      var c, inner := [text[0]], text[1..] + Closing(hashes);
      UnclosedTail(text, hashes);
      RawBody(text[1..], hashes, rest);
      RawChar(text[0], text[1..], hashes, rest);
      InTurn(c, inner, rest, mode, mode, Normal);
      assert c + inner == text + Closing(hashes);
    }
  }

  lemma {:induction false} TextOpens(isBytes: bool, rest: string)
    ensures Blanked(if isBytes then "b\"" else "\"", rest, Normal, StringLiteral)
  {
    hide Blanked;
    var head := if isBytes then "b\"" else "\"";
    var s := head + rest;
    assert s[0] == head[0] && (isBytes ==> s[1] == head[1]);
    assert head <= s;
    assert RawPrefix(s) == 0;
    InOneStep(head, rest, Normal, StringLiteral);
  }

  lemma {:induction false} RawHeadIsRead(isBytes: bool, hashes: nat, rest: string)
    ensures var head := RawHead(isBytes, hashes);
            RawOpening(head + rest) == Some((hashes, |head|)) && (head + rest)[0] != '/'
  {
    var head, prefix := RawHead(isBytes, hashes), if isBytes then "br" else "r";
    var s := head + rest;
    assert s == prefix + (HashRun(hashes) + ("\"" + rest));
    assert prefix <= s && s[0] == prefix[0];
    assert RawPrefix(s) == |prefix|;
    assert s[|prefix|..] == HashRun(hashes) + ("\"" + rest);
    assert ("\"" + rest)[0] == '"';
    HashesOfRun(hashes, "\"" + rest);
    assert s[|prefix| + hashes] == '"';
  }

  lemma {:induction false} RawOpens(isBytes: bool, hashes: nat, rest: string)
    ensures Blanked(RawHead(isBytes, hashes), rest, Normal, RawString(hashes))
  {
    hide Blanked, RawOpening, Hashes;
    var head := RawHead(isBytes, hashes);
    RawHeadIsRead(isBytes, hashes, rest);
    assert Blanks(head) == Spaces(|head|);
    InOneStep(head, rest, Normal, RawString(hashes));
  }

  lemma {:induction false} RawHeadOpens(s: string, isBytes: bool, hashes: nat)
    requires RawHead(isBytes, hashes) <= s
    ensures RawOpening(s) == Some((hashes, |RawHead(isBytes, hashes)|))
  {
    hide RawOpening;
    var head := RawHead(isBytes, hashes);
    assert s == head + s[|head|..];
    RawHeadIsRead(isBytes, hashes, s[|head|..]);
  }

  lemma {:induction false} RawOpeningIsWritten(s: string)
    requires RawOpening(s).Some?
    ensures BeginsRaw(s)
  {
    var p := RawPrefix(s);
    var tail := s[p..];
    var head := RawHead(p == 2, Hashes(tail));
    assert forall i | p <= i < |s| :: s[i] == tail[i - p];
    assert head <= s;
  }

  /** A text opens a raw string exactly as one is written, with as many hashes and characters. */
  lemma {:induction false} RawStringsExactly(s: string)
    ensures RawOpening(s).Some? <==> BeginsRaw(s)
    ensures forall isBytes, hashes: nat | RawHead(isBytes, hashes) <= s ::
              RawOpening(s) == Some((hashes, |RawHead(isBytes, hashes)|))
  {
    forall isBytes, hashes: nat | RawHead(isBytes, hashes) <= s
      ensures RawOpening(s) == Some((hashes, |RawHead(isBytes, hashes)|))
    {
      RawHeadOpens(s, isBytes, hashes);
    }
    if RawOpening(s).Some? {
      RawOpeningIsWritten(s);
    }
    hide RawOpening, RawHead;
  }

  /** A text opens a character literal exactly as a readable one is written, with anything after it. */
  lemma {:induction false} LiteralsExactly(s: string)
    ensures CharLiteralLength(s).Some? <==> BeginsLiteral(s)
  {
    if CharLiteralLength(s).Some? {
      var form := if s[1] != '\\' then Simple(Bare(s[1]))
                  else if s[2] == 'x' then Hex(s[3], s[4])
                  else Simple(Escaped(s[2]));
      if s[1] == '\\' && s[2] == 'u' {
        UnicodeEscapesAreNotRecognised(s);
      }
      assert Readable(form) && "'" + WriteForm(form) + "'" <= s;
    }
    if form :| Readable(form) && "'" + WriteForm(form) + "'" <= s {
      var written := "'" + WriteForm(form) + "'";
      assert forall i | 0 <= i < |written| :: s[i] == written[i];
      ReadableIsRead(s, form);
    }
  }

  lemma {:induction false} ReadableIsRead(s: string, form: Form)
    requires Readable(form) && "'" + WriteForm(form) + "'" <= s
    ensures CharLiteralLength(s).Some?
  {
    var body := WriteForm(form);
    var written := "'" + body + "'";
    assert s[0] == written[0] && s[1 + |body|] == written[1 + |body|];
    assert forall i | 0 <= i < |body| :: s[1 + i] == written[1 + i] == body[i];
    assert s[1] == body[0];
    match form {
      case Simple(q) =>
        assert q.Escaped? ==> s[2] == body[1] == q.c;
      case Hex(high, low) =>
        assert s[2] == body[1] == 'x' && s[3] == body[2] == high && s[4] == body[3] == low && s[5] == '\'';
    }
  }

  /** A comment or a literal opens exactly where the text begins as one is written. */
  lemma {:induction false} OpensExactly(s: string)
    ensures Opens(s) <==> BeginsToken(s)
  {
    RawStringsExactly(s);
    LiteralsExactly(s);
  }

  lemma {:induction false} NameDoesNotOpen(name: string, rest: string)
    requires name != "" && (forall i | 0 <= i < |name| :: NameChar(name[i])) && EndsName(rest)
    ensures !Opens(name + rest)
  {
    var s, p := name + rest, RawPrefix(name + rest);
    assert s[0] == name[0];
    assert |s| > 1 ==> s[1] == if |name| > 1 then name[1] else rest[0];
    assert |name| > 1 && |s| > 2 ==> s[2] == if |name| > 2 then name[2] else rest[0];
    assert |s| > p ==> s[p..][0] == s[p];
  }

  /** The characters of a name are kept. */
  lemma {:induction false} NameIsKept(name: string, rest: string)
    requires (forall i | 0 <= i < |name| :: NameChar(name[i])) && EndsName(rest)
    ensures Scan(name + rest, Normal) == name + Scan(rest, Normal)
    decreases |name|
  {
    hide Scan, NameChar, EndsName;
    if name == "" {
      assert name + rest == rest;
    } else {
      var s, tail := name + rest, name[1..];
      assert s[0] == name[0] && s[1..] == tail + rest;
      NameDoesNotOpen(name, rest);
      CodeIsKept(s);
      NameIsKept(tail, rest);
      assert name == [name[0]] + tail;
      assert [name[0]] + (tail + Scan(rest, Normal)) == name + Scan(rest, Normal);
    }
  }

  lemma {:induction false} QuoteDoesNotOpen(name: string, rest: string)
    requires Identifier(name) && EndsName(rest)
    ensures !Opens("'" + name + rest)
  {
    var s := "'" + name + rest;
    assert s[0] == '\'' && s[1] == name[0];
    assert |s| > 2 ==> s[2] == if |name| > 1 then name[1] else rest[0];
  }

  /** A quote and a name with no quote after it is a lifetime, and is kept. */
  lemma {:induction false} LifetimeIsKept(name: string, rest: string)
    requires Identifier(name) && EndsName(rest)
    ensures Stripped("'" + name + rest) == "'" + name + Stripped(rest)
  {
    hide Scan, Opens, NameChar, EndsName;
    var s := "'" + name + rest;
    QuoteDoesNotOpen(name, rest);
    CodeIsKept(s);
    NameIsKept(name, rest);
    assert s[0] == '\'' && s[1..] == name + rest;
    assert ['\''] + (name + Scan(rest, Normal)) == "'" + name + Scan(rest, Normal);
  }

  /** Exactly the literals without a unicode escape are recognised, whatever follows them. */
  lemma {:induction false} LiteralIsRecognised(form: Form, rest: string)
    requires WellFormed(form)
    ensures CharLiteralLength("'" + WriteForm(form) + "'" + rest).Some? <==> !form.Unicode?
  {
    var body := WriteForm(form);
    var s := "'" + body + "'" + rest;
    assert s[0] == '\'' && s[1 + |body|] == '\'';
    assert forall i | 0 <= i < |body| :: s[1 + i] == body[i];
    assert s[1] == body[0];
    match form {
      case Simple(q) =>
        assert q.Escaped? ==> s[2] == body[1] == q.c;
      case Hex(high, low) =>
        assert s[2] == body[1] == 'x' && s[3] == body[2] == high && s[4] == body[3] == low && s[5] == '\'';
      case Unicode(digits) =>
        assert s[2] == body[1] == 'u';
        UnicodeEscapesAreNotRecognised(s);
    }
  }

  lemma {:induction false} CharacterOpens(form: Form, rest: string)
    requires WellFormed(form) && !form.Unicode?
    ensures Blanked("'", WriteForm(form) + "'" + rest, Normal, CharLiteral)
  {
    hide Blanked;
    var body := WriteForm(form);
    var s := "'" + (body + "'" + rest);
    LiteralIsRecognised(form, rest);
    assert s == "'" + body + "'" + rest && s[0] == '\'';
    hide CharLiteralLength, WellFormed;
    assert RawPrefix(s) == 0;
    InOneStep("'", body + "'" + rest, Normal, CharLiteral);
  }

  lemma {:induction false} FormBody(form: Form, rest: string)
    requires WellFormed(form) && !form.Unicode?
    ensures Blanked(WriteForm(form), rest, CharLiteral, CharLiteral)
  {
    hide Blanked;
    match form {
      case Simple(q) => QuotedChar(q, rest, '\'', CharLiteral);
      case Hex(high, low) =>
        var escape, h, l := WriteQuoted(Escaped('x')), [high], [low];
        QuotedChar(Escaped('x'), h + l + rest, '\'', CharLiteral);
        QuotedChar(Bare(high), l + rest, '\'', CharLiteral);
        QuotedChar(Bare(low), rest, '\'', CharLiteral);
        InTurn(h, l, rest, CharLiteral, CharLiteral, CharLiteral);
        InTurn(escape, h + l, rest, CharLiteral, CharLiteral, CharLiteral);
        assert escape + (h + l) == WriteForm(form);
    }
  }

  lemma {:induction false} CharacterToken(form: Form, rest: string)
    requires WellFormed(form) && !form.Unicode?
    ensures Blanked("'" + WriteForm(form) + "'", rest, Normal, Normal)
  {
    hide Blanked, WellFormed;
    var body := WriteForm(form);
    CharacterOpens(form, rest);
    FormBody(form, "'" + rest);
    ClosingQuote('\'', rest, CharLiteral);
    InTurn(body, "'", rest, CharLiteral, CharLiteral, Normal);
    InTurn("'", body + "'", rest, Normal, CharLiteral, Normal);
    assert "'" + (body + "'") == "'" + body + "'";
  }

  lemma {:induction false} CommentOpens(rest: string)
    ensures Blanked("//", rest, Normal, LineComment)
    ensures Blanked("/*", rest, Normal, BlockComment(1))
  {
    hide Blanked;
    assert ("/*" + rest)[1] == '*';
    assert ("//" + rest)[1] == '/';
    InOneStep("//", rest, Normal, LineComment);
    InOneStep("/*", rest, Normal, BlockComment(1));
  }

  /** A token that is not code is blanked, and the scanner is back in code after it. */
  lemma {:induction false} TokenIsBlanked(t: Token, rest: string)
    requires WellWritten(t, rest) && !IsCode(t) && !IsUnicodeEscape(t)
    ensures Blanked(Write(t), rest, Normal, Normal)
  {
    hide Blanked, Unambiguous, Unclosed;
    match t {
      case Line(text) =>
        CommentOpens(text + "\n" + rest);
        LineBody(text, rest);
        InTurn("//", text + "\n", rest, Normal, LineComment, Normal);
        assert "//" + (text + "\n") == Write(t);
      case Block(body) =>
        var inner := WritePieces(body) + "*/";
        CommentOpens(inner + rest);
        CommentBody(body, rest, 1);
        InTurn("/*", inner, rest, Normal, BlockComment(1), Normal);
        assert "/*" + inner == Write(t);
      case Text(isBytes, chars) =>
        var head, inner := if isBytes then "b\"" else "\"", WriteAllQuoted(chars) + "\"";
        TextOpens(isBytes, inner + rest);
        QuotedBody(chars, rest);
        InTurn(head, inner, rest, Normal, StringLiteral, Normal);
        assert head + inner == Write(t);
      case Raw(isBytes, hashes, text) =>
        var head, inner := RawHead(isBytes, hashes), text + Closing(hashes);
        RawOpens(isBytes, hashes, inner + rest);
        RawBody(text, hashes, rest);
        InTurn(head, inner, rest, Normal, RawString(hashes), Normal);
        assert head + inner == Write(t);
      case LastLine(text) =>
        assert text + "" == text;
        CommentOpens(text);
        LastLineBody(text);
        InTurn("//", text, "", Normal, LineComment, Normal);
      case Character(form) =>
        CharacterToken(form, rest);
    }
  }

  /** The opening quote of a unicode escape is kept. */
  lemma {:induction false} EscapeIsNotMasked(t: Token, rest: string)
    requires IsUnicodeEscape(t) && WellFormed(t.form)
    ensures Scan(Write(t) + rest, Normal) != "" && Scan(Write(t) + rest, Normal)[0] != Mask(t)[0]
  {
    var s := "'" + WriteForm(t.form) + "'" + rest;
    LiteralIsRecognised(t.form, rest);
    assert s[0] == '\'' && Write(t)[0] == '\'';
    CodeIsKept(s);
  }

  /** A source written from tokens is stripped to their masks exactly if no token is a unicode escape: then code
      stays, and exactly the comments (nested to any depth), strings, raw strings and character literals are blanked,
      newlines aside. */
  lemma {:induction false} TokensAreMasked(ts: seq<Token>)
    requires Lexes(ts)
    ensures Stripped(WriteAll(ts)) == MaskAll(ts) <==> forall t | t in ts :: !IsUnicodeEscape(t)
    decreases |ts|
  {
    if ts != [] {
      var t, rest, masked := ts[0], WriteAll(ts[1..]), MaskAll(ts[1..]);
      TokensAreMasked(ts[1..]);
      assert forall u | u in ts :: u == t || u in ts[1..];
      if IsUnicodeEscape(t) {
        EscapeIsNotMasked(t, rest);
        assert t in ts && MaskAll(ts)[0] == Mask(t)[0];
      } else {
        FirstIsMasked(t, rest);
        SameTail(Mask(t), Stripped(rest), masked);
      }
    }
  }

  lemma {:induction false} FirstIsMasked(t: Token, rest: string)
    requires WellWritten(t, rest) && !IsUnicodeEscape(t)
    ensures Stripped(Write(t) + rest) == Mask(t) + Stripped(rest)
  {
    if t.Code? {
      OpensExactly([t.c] + rest);
      CodeIsKept([t.c] + rest);
      assert ([t.c] + rest)[1..] == rest;
    } else if t.Lifetime? {
      LifetimeIsKept(t.name, rest);
    } else {
      TokenIsBlanked(t, rest);
    }
  }

  lemma {:induction false} SameTail(a: string, b: string, c: string)
    ensures a + b == a + c <==> b == c
  {
    assert (a + b)[|a|..] == b && (a + c)[|a|..] == c;
  }

  // ---------------------------------------------------------------------
  // A literal that is not recognised
  // ---------------------------------------------------------------------

  lemma {:induction false} PlainCode(c: char, rest: string)
    requires c != '/' && c != 'r' && c != 'b' && c != '"' && c != '\''
    ensures Scan([c] + rest, Normal) == [c] + Scan(rest, Normal)
  {
    var s := [c] + rest;
    assert s[0] == c && s[1..] == rest;
    CodeIsKept(s);
  }

  /** The closing quote of a unicode escape opens a literal of its own. After `'\u{41}'+'"'`
      everything up to the next double quote is taken for a string, although it is code. */
  lemma {:induction false} UnicodeEscapeDerails(rest: string)
    ensures Stripped("'\\u{41}'+'\"'" + rest) == "'" + "\\u{41}" + "    " + Scan("'" + rest, StringLiteral)
  {
    var quoted := "'+'\"" + ("'" + rest);
    UnrecognisedExample(quoted[1..]);
    hide *;
    DerailingSource(rest);
    EscapeIsCode(quoted);
    BogusLiteral(rest);
    Regroup("'", "\\u{41}", "    ", Scan("'" + rest, StringLiteral));
  }

  lemma {:induction false} Regroup(a: string, b: string, c: string, d: string)
    ensures a + (b + (c + d)) == a + b + c + d
  {
  }

  lemma {:induction false} UnrecognisedExample(after: string)
    ensures var body := WriteForm(Unicode("41")) + "'" + after;
            Stripped("'" + body) == "'" + Scan(body, Normal)
  {
    UnrecognisedQuote("41", after);
  }

  lemma {:induction false} DerailingSource(rest: string)
    ensures var quoted := "'+'\"" + ("'" + rest);
            && "'\\u{41}'+'\"'" + rest == "'" + ("\\u{41}" + quoted)
            && WriteForm(Unicode("41")) + "'" + quoted[1..] == "\\u{41}" + quoted
  {
    var quoted := "'+'\"" + ("'" + rest);
    assert quoted == "'" + quoted[1..];
    assert "\\u{" + "41" + "}" == "\\u{41}";
    assert "'\\u{41}'+'\"'" == "'" + ("\\u{41}" + ("'+'\"" + "'"));
  }

  lemma {:induction false} UnrecognisedQuote(digits: string, after: string)
    requires 1 <= |digits| <= 6 && AllHex(digits)
    ensures var body := WriteForm(Unicode(digits)) + "'" + after;
            Scan("'" + body, Normal) == "'" + Scan(body, Normal)
  {
    var body := WriteForm(Unicode(digits)) + "'" + after;
    var s := "'" + body;
    LiteralIsRecognised(Unicode(digits), after);
    assert s == "'" + WriteForm(Unicode(digits)) + "'" + after;
    assert s[0] == '\'' && s[1..] == body;
    CodeIsKept(s);
  }

  lemma {:induction false} EscapeIsCode(rest: string)
    ensures Scan("\\u{41}" + rest, Normal) == "\\u{41}" + Scan(rest, Normal)
  {
    hide Scan;
    PlainCode('}', rest);
    PlainCode('1', "}" + rest);
    PlainCode('4', "1}" + rest);
    PlainCode('{', "41}" + rest);
    PlainCode('u', "{41}" + rest);
    PlainCode('\\', "u{41}" + rest);
    assert ['1'] + ("}" + rest) == "1}" + rest && ['4'] + ("1}" + rest) == "41}" + rest;
    assert ['{'] + ("41}" + rest) == "{41}" + rest && ['u'] + ("{41}" + rest) == "u{41}" + rest;
    assert ['\\'] + ("u{41}" + rest) == "\\u{41}" + rest && ['}'] + rest == "}" + rest;
  }

  lemma {:induction false} PlusQuoted()
    ensures "'" + WriteForm(Simple(Bare('+'))) + "'" == "'+'" && WellFormed(Simple(Bare('+')))
    ensures Blanks("'+'") == "   " && Blanks("\"") == " "
  {
  }

  lemma {:induction false} BogusLiteral(rest: string)
    ensures Scan("'+'\"" + ("'" + rest), Normal) == "    " + Scan("'" + rest, StringLiteral)
  {
    var tail := "'" + rest;
    var open := "\"" + tail;
    hide Scan, WellFormed;
    PlusQuoted();
    CharacterToken(Simple(Bare('+')), open);
    TextOpens(false, tail);
    hide Blanks, WriteForm;
    assert "'+'\"" + tail == "'+'" + open;
    assert "   " + (" " + Scan(tail, StringLiteral)) == "    " + Scan(tail, StringLiteral);
  }
}
