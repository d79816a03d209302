/** Text helpers shared by the two statement splitters: white space, trimming, and lists of pieces. */
module SqlText {

  /** Unicode `White_Space`, as `char::is_whitespace` and `str::trim` have it. */
  predicate IsSpace(c: char)
  {
    var n := c as int;
    9 <= n <= 13 || n == 0x20 || n == 0x85 || n == 0xA0 || n == 0x1680 || 0x2000 <= n <= 0x200A ||
    n == 0x2028 || n == 0x2029 || n == 0x202F || n == 0x205F || n == 0x3000
  }

  /** The code points that the Unicode Character Database lists as `White_Space` in PropList.txt. */
  const WHITE_SPACE: set<int> :=
    {0x09, 0x0A, 0x0B, 0x0C, 0x0D, 0x20, 0x85, 0xA0, 0x1680,
     0x2000, 0x2001, 0x2002, 0x2003, 0x2004, 0x2005, 0x2006, 0x2007, 0x2008, 0x2009, 0x200A,
     0x2028, 0x2029, 0x202F, 0x205F, 0x3000}

  predicate Printable(c: char) { '!' <= c <= '~' }

  /** White space is Unicode's: in particular no printable ASCII character, but space, tab, CR and LF. */
  lemma WhiteSpaceIsUnicodes(c: char)
    ensures IsSpace(c) <==> c as int in WHITE_SPACE
    ensures Printable(c) ==> !IsSpace(c)
    ensures c == ' ' || c == '\t' || c == '\n' || c == '\r' ==> IsSpace(c)
  {
  }

  predicate Blank(s: string)
  {
    forall i :: 0 <= i < |s| ==> IsSpace(s[i])
  }

  function TrimStart(s: string): string
  {
    if s != [] && IsSpace(s[0]) then TrimStart(s[1..]) else s
  }

  function TrimEnd(s: string): string
  {
    if s != [] && IsSpace(s[|s| - 1]) then TrimEnd(s[..|s| - 1]) else s
  }

  function Trim(s: string): string { TrimEnd(TrimStart(s)) }

  predicate Trimmed(s: string)
  {
    s != [] ==> !IsSpace(s[0]) && !IsSpace(s[|s| - 1])
  }

  lemma BlankConcat(a: string, b: string)
    requires Blank(a) && Blank(b)
    ensures Blank(a + b)
  {
  }

  lemma {:induction false} TrimStartSplits(s: string) returns (lead: string)
    ensures Blank(lead) && s == lead + TrimStart(s)
    ensures TrimStart(s) != [] ==> !IsSpace(TrimStart(s)[0])
  {
    lead := [];
    if s != [] && IsSpace(s[0]) {
      var rest := TrimStartSplits(s[1..]);
      BlankConcat([s[0]], rest);
      lead := [s[0]] + rest;
      assert s == [s[0]] + (rest + TrimStart(s[1..])) == lead + TrimStart(s[1..]);
    }
  }

  lemma {:induction false} TrimEndSplits(s: string) returns (trail: string)
    ensures Blank(trail) && s == TrimEnd(s) + trail
    ensures TrimEnd(s) != [] ==> !IsSpace(TrimEnd(s)[|TrimEnd(s)| - 1])
  {
    trail := [];
    var n := |s| - 1;
    if s != [] && IsSpace(s[n]) {
      var rest := TrimEndSplits(s[..n]);
      BlankConcat(rest, [s[n]]);
      trail := rest + [s[n]];
      assert s == (TrimEnd(s[..n]) + rest) + [s[n]] == TrimEnd(s[..n]) + trail;
    }
  }

  /** Trimming removes white space at both ends and nothing else. */
  lemma TrimSplits(s: string) returns (lead: string, trail: string)
    ensures Blank(lead) && Blank(trail) && s == lead + Trim(s) + trail && Trimmed(Trim(s))
  {
    lead := TrimStartSplits(s);
    trail := TrimEndSplits(TrimStart(s));
    assert s == lead + (Trim(s) + trail);
    if Trim(s) != [] {
      assert Trim(s)[0] == TrimStart(s)[0];
    }
  }

  /** A trimmed text surrounded by white space is what trimming finds. */
  lemma TrimUnique(lead: string, s: string, trail: string)
    requires Blank(lead) && Blank(trail) && Trimmed(s)
    ensures Trim(lead + s + trail) == s
  {
    TrimStartSkips(lead, s + trail);
    assert lead + s + trail == lead + (s + trail);
    if s == [] {
      TrimStartSkips(trail, []);
      assert trail + [] == trail && s + trail == trail;
    } else {
      TrimEndSkips(s, trail);
    }
  }

  lemma {:induction false} TrimStartSkips(lead: string, s: string)
    requires Blank(lead)
    ensures TrimStart(lead + s) == TrimStart(s)
  {
    if lead == [] {
      assert lead + s == s;
    } else {
      assert (lead + s)[1..] == lead[1..] + s;
      TrimStartSkips(lead[1..], s);
    }
  }

  lemma {:induction false} TrimEndSkips(s: string, trail: string)
    requires Blank(trail)
    ensures TrimEnd(s + trail) == TrimEnd(s)
  {
    if trail == [] {
      assert s + trail == s;
    } else {
      var n := |trail| - 1;
      assert (s + trail)[..|s + trail| - 1] == s + trail[..n];
      TrimEndSkips(s, trail[..n]);
    }
  }

  // ---------- Lists of pieces ----------

  /** What a splitter reports: the pieces, trimmed, without the blank ones. */
  function Statements(pieces: seq<string>): seq<string>
  {
    if pieces == [] then []
    else (if Trim(pieces[0]) == [] then [] else [Trim(pieces[0])]) + Statements(pieces[1..])
  }

  /** Put `s` in front of the first piece. */
  function Push(s: string, pieces: seq<string>): seq<string>
    requires pieces != []
  {
    [s + pieces[0]] + pieces[1..]
  }

  lemma PushPush(a: string, b: string, pieces: seq<string>)
    requires pieces != []
    ensures Push(a, Push(b, pieces)) == Push(a + b, pieces)
  {
    assert a + (b + pieces[0]) == a + b + pieces[0];
  }

  // ---------- What can be seen ----------

  function VisibleChar(c: char): string { if Printable(c) then [c] else "" }

  /** The printable characters of a text, in order. */
  function Visible(s: string): string
  {
    if s == [] then "" else VisibleChar(s[0]) + Visible(s[1..])
  }

  function Flat(pieces: seq<string>): string
  {
    if pieces == [] then "" else pieces[0] + Flat(pieces[1..])
  }

  lemma {:induction false} VisibleConcat(a: string, b: string)
    ensures Visible(a + b) == Visible(a) + Visible(b)
  {
    if a == [] {
      assert a + b == b;
    } else {
      var c, rest := VisibleChar(a[0]), Visible(a[1..]);
      assert (a + b)[0] == a[0] && (a + b)[1..] == a[1..] + b;
      VisibleConcat(a[1..], b);
      Associates(c, rest, Visible(b));
    }
  }

  lemma Associates(a: string, b: string, c: string)
    ensures a + (b + c) == (a + b) + c
  {
  }

  lemma {:induction false} BlankIsInvisible(s: string)
    requires Blank(s)
    ensures Visible(s) == ""
  {
    if s != [] {
      WhiteSpaceIsUnicodes(s[0]);
      BlankIsInvisible(s[1..]);
    }
  }

  lemma VisibleTrim(s: string)
    ensures Visible(Trim(s)) == Visible(s)
  {
    var lead, trail := TrimSplits(s);
    VisibleConcat(lead + Trim(s), trail);
    VisibleConcat(lead, Trim(s));
    BlankIsInvisible(lead);
    BlankIsInvisible(trail);
  }

  /** Reporting loses nothing that can be seen. */
  lemma {:induction false} VisibleStatements(pieces: seq<string>)
    ensures Visible(Flat(Statements(pieces))) == Visible(Flat(pieces))
  {
    if pieces != [] {
      VisibleStatements(pieces[1..]);
      VisibleTrim(pieces[0]);
      VisibleConcat(pieces[0], Flat(pieces[1..]));
      var rest := Statements(pieces[1..]);
      if Trim(pieces[0]) == [] {
        assert Statements(pieces) == rest;
      } else {
        assert Statements(pieces)[1..] == rest;
        VisibleConcat(Trim(pieces[0]), Flat(rest));
      }
    }
  }
}
