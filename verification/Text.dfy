/** Trimming of text, with the white space of the Unicode property, and the order of texts. */
module Text {

  predicate Whitespace(c: char) {
    var n := c as int;
    || 9 <= n <= 13 || n == 32 || n == 0x85 || n == 0xA0 || n == 0x1680
    || 0x2000 <= n <= 0x200A || n == 0x2028 || n == 0x2029 || n == 0x202F || n == 0x205F || n == 0x3000
  }

  /** No white space at either end. */
  predicate Trimmed(s: string) {
    s == "" || (!Whitespace(s[0]) && !Whitespace(s[|s| - 1]))
  }

  function TrimStart(s: string): (r: string)
    ensures r == "" || !Whitespace(r[0])
    ensures |r| <= |s| && r == s[|s| - |r|..]
  {
    if s != "" && Whitespace(s[0]) then TrimStart(s[1..]) else s
  }

  function TrimEnd(s: string): (r: string)
    ensures r == "" || !Whitespace(r[|r| - 1])
    ensures r <= s
  {
    if s != "" && Whitespace(s[|s| - 1]) then TrimEnd(s[..|s| - 1]) else s
  }

  function Trim(s: string): (r: string)
    ensures Trimmed(r)
    ensures Trimmed(s) ==> r == s
    ensures |r| <= |s|
  {
    TrimEnd(TrimStart(s))
  }

  predicate AllWhite(s: string) {
    forall i | 0 <= i < |s| :: Whitespace(s[i])
  }

  lemma {:induction false} StartIsCut(lead: string, s: string)
    requires AllWhite(lead) && (s == "" || !Whitespace(s[0]))
    ensures TrimStart(lead + s) == s
    decreases |lead|
  {
    hide Whitespace;
    if lead == "" {
      assert lead + s == s;
    } else {
      assert (lead + s)[0] == lead[0] && (lead + s)[1..] == lead[1..] + s;
      StartIsCut(lead[1..], s);
    }
  }

  lemma {:induction false} EndIsCut(s: string, trail: string)
    requires AllWhite(trail) && (s == "" || !Whitespace(s[|s| - 1]))
    ensures TrimEnd(s + trail) == s
    decreases |trail|
  {
    hide Whitespace;
    if trail == "" {
      assert s + trail == s;
    } else {
      var all, front := s + trail, trail[..|trail| - 1];
      assert all[|all| - 1] == trail[|trail| - 1] && all[..|all| - 1] == s + front;
      EndIsCut(s, front);
    }
  }

  lemma {:induction false} StartCutsWhite(s: string)
    ensures AllWhite(s[..|s| - |TrimStart(s)|])
    decreases |s|
  {
    hide Whitespace;
    if s != "" && Whitespace(s[0]) {
      var tail, n := s[1..], |s| - |TrimStart(s)|;
      StartCutsWhite(tail);
      assert TrimStart(s) == TrimStart(tail);
      hide TrimStart;
      assert s[..n] == [s[0]] + tail[..n - 1];
    }
  }

  lemma {:induction false} EndCutsWhite(s: string)
    ensures AllWhite(s[|TrimEnd(s)|..])
    decreases |s|
  {
    hide Whitespace;
    if s != "" && Whitespace(s[|s| - 1]) {
      var front := s[..|s| - 1];
      EndCutsWhite(front);
      assert s[|TrimEnd(s)|..] == front[|TrimEnd(s)|..] + [s[|s| - 1]];
    }
  }

  lemma {:induction false} TrimCutsWhite(s: string) returns (lead: string, trail: string)
    ensures AllWhite(lead) && AllWhite(trail) && s == lead + Trim(s) + trail
  {
    hide Whitespace, AllWhite;
    var started := TrimStart(s);
    StartCutsWhite(s);
    EndCutsWhite(started);
    var r := TrimEnd(started);
    lead, trail := s[..|s| - |started|], started[|r|..];
    PutTogether(s, started, r);
  }

  lemma {:induction false} PutTogether(s: string, started: string, r: string)
    requires |started| <= |s| && started == s[|s| - |started|..] && r <= started
    ensures s == s[..|s| - |started|] + r + started[|r|..]
  {
    assert started == r + started[|r|..];
    assert s == s[..|s| - |started|] + started;
  }

  /** What is cut off is white space, and all of it at both ends. */
  lemma {:induction false} TrimExactly(s: string, r: string)
    ensures r == Trim(s)
            <==> Trimmed(r) && exists lead, trail :: AllWhite(lead) && AllWhite(trail) && s == lead + r + trail
  {
    hide Whitespace, AllWhite, TrimStart, TrimEnd;
    var lead, trail := TrimCutsWhite(s);
    if lead, trail :| Trimmed(r) && AllWhite(lead) && AllWhite(trail) && s == lead + r + trail {
      OnlyTrimmed(lead, r, trail);
    }
  }

  lemma {:induction false} OnlyTrimmed(lead: string, r: string, trail: string)
    requires Trimmed(r) && AllWhite(lead) && AllWhite(trail)
    ensures Trim(lead + r + trail) == r
  {
    hide Whitespace, TrimStart, TrimEnd;
    if r == "" {
      StartIsCut(lead + trail, "");
      assert lead + r + trail == lead + trail + "";
      EndIsCut("", "");
    } else {
      StartIsCut(lead, r + trail);
      assert lead + r + trail == lead + (r + trail);
      EndIsCut(r, trail);
    }
  }

  /** The order of texts by their characters. */
  predicate Before(a: string, b: string)
    decreases |a|
  {
    b != [] && (a == [] || a[0] < b[0] || (a[0] == b[0] && Before(a[1..], b[1..])))
  }

  /** The first character that differs decides, and a text comes before its continuations. */
  lemma {:induction false} BeforeExactly(a: string, b: string, k: nat)
    requires k <= |a| && k <= |b| && a[..k] == b[..k] && (k < |a| && k < |b| ==> a[k] != b[k])
    ensures Before(a, b) <==> (k == |a| && k < |b|) || (k < |a| && k < |b| && a[k] < b[k])
    decreases k
  {
    if k > 0 {
      assert a[0] == a[..k][0] == b[..k][0] == b[0];
      assert a[1..][..k - 1] == a[..k][1..] == b[..k][1..] == b[1..][..k - 1];
      BeforeExactly(a[1..], b[1..], k - 1);
    }
  }

  lemma {:induction false} BeforeIsTotal(a: string, b: string)
    ensures Before(a, b) || a == b || Before(b, a)
    ensures !(Before(a, b) && Before(b, a))
    decreases |a|
  {
    if a != [] && b != [] {
      BeforeIsTotal(a[1..], b[1..]);
      if a[0] == b[0] && a[1..] == b[1..] {
        assert a == [a[0]] + a[1..] && b == [b[0]] + b[1..];
      }
    } else if a == [] && b == [] {
      assert a == b;
    }
  }

  lemma {:induction false} BeforeIsTransitive(a: string, b: string, c: string)
    requires Before(a, b) && Before(b, c)
    ensures Before(a, c)
    decreases |a|
  {
    if a != [] && a[0] == b[0] && b[0] == c[0] {
      BeforeIsTransitive(a[1..], b[1..], c[1..]);
    }
  }
}
