/**
 Laws of the migrator's splitter: printing statements and splitting them again is the identity,
 and splitting is idempotent on every input.

 They rest on reading a text one character at a time without lookahead. The mode records what the
 next character can mean; `Bad` means the splitter would not have copied the text verbatim.
 */
module SplitterLaws {
  import opened Wrappers
  import opened SqlText
  import opened Splitter

  datatype Mode =
    | Out    // outside literals
    | Dash   // outside literals, after a `-`
    | In     // inside a literal
    | Quote  // after a quote that closes the literal unless another quote follows
    | Bad    // an unquoted `;` or `--` has been read

  function Next(m: Mode, c: char): Mode
  {
    if m == Bad then Bad
    else if m == In then (if c == '\'' then Quote else In)
    else if c == '\'' then In
    else if c == ';' then Bad
    else if c == '-' then (if m == Dash then Bad else Dash)
    else Out
  }

  function After(m: Mode, s: string): Mode
    decreases |s|
  {
    if s == [] then m else After(Next(m, s[0]), s[1..])
  }

  predicate Closed(m: Mode) { m == Out || m == Dash || m == Quote }

  /** Quotes are balanced, and no `;` or `--` stands outside the literals. */
  predicate Balanced(s: string) { Closed(After(Out, s)) }

  lemma {:induction false} AfterConcat(m: Mode, a: string, b: string)
    ensures After(m, a + b) == After(After(m, a), b)
    decreases |a|
  {
    if a == [] {
      assert a + b == b;
    } else {
      assert (a + b)[1..] == a[1..] + b;
      AfterConcat(Next(m, a[0]), a[1..], b);
    }
  }

  lemma {:induction false} AfterBlank(m: Mode, s: string)
    requires Blank(s)
    ensures After(m, s) == (if s == [] || m == In || m == Bad then m else Out)
    decreases |s|
  {
    if s != [] {
      AfterBlank(Next(m, s[0]), s[1..]);
    }
  }

  lemma {:induction false} BadStays(s: string)
    ensures After(Bad, s) == Bad
  {
    if s != [] {
      BadStays(s[1..]);
    }
  }

  // ---------- Copying ----------

  predicate CommentStarts(t: string) { |t| > 1 && t[0] == '-' && t[1] == '-' }

  /**
   A text the mode accepts is copied verbatim up to the end of the input, a splitting `;` or a comment.
   */
  lemma {:induction false} ScanCopies(m: Mode, p: string, t: string)
    requires After(m, p) != Bad
    requires t == [] || (t[0] == ';' && Closed(After(m, p))) ||
             (CommentStarts(t) && Closed(After(m, p)) && After(m, p) != Dash)
    requires m == Quote && p != [] ==> p[0] != '\''
    ensures Scan(p + t, m == In) == Push(p, Scan(t, After(m, p) == In))
    decreases |p|
  {
    var s := p + t;
    if p == [] {
      assert s == t;
      PushEmpty(Scan(t, m == In));
    } else if m == In && p[0] == '\'' && |p| > 1 && p[1] == '\'' {
      assert s[2..] == p[2..] + t && p == "''" + p[2..];
      assert After(m, p) == After(In, p[2..]);
      ScanCopies(In, p[2..], t);
      PushPush("''", p[2..], Scan(t, After(m, p) == In));
    } else {
      var m' := Next(m, p[0]);
      if m == Bad || m' == Bad {
        BadStays(p[1..]);
        BadStays(p);
      } else {
        assert s[1..] == p[1..] + t && p == [p[0]] + p[1..];
        if m' == Dash && |p| > 1 && p[1] == '-' {
          BadStays(p[2..]);
        }
        ScanCopies(m', p[1..], t);
        PushPush([p[0]], p[1..], Scan(t, After(m, p) == In));
      }
    }
  }

  /** The pieces of a scan, read from mode `m`: all acceptable, all but the last closed. */
  predicate WellCut(m: Mode, pieces: seq<string>)
    requires pieces != []
    decreases |pieces|
  {
    && After(m, pieces[0]) != Bad
    && (|pieces| > 1 ==> Closed(After(m, pieces[0])) && WellCut(Out, pieces[1..]))
  }

  lemma WellCutPush(m: Mode, c: char, pieces: seq<string>)
    requires pieces != [] && WellCut(Next(m, c), pieces)
    ensures WellCut(m, Push([c], pieces))
  {
    assert ([c] + pieces[0])[1..] == pieces[0];
    assert Push([c], pieces)[1..] == pieces[1..];
  }

  /** Whatever the splitter reads, the pieces it cuts are acceptable. */
  lemma {:induction false} ScanCutsWell(m: Mode, s: string)
    requires m != Bad
    requires s != [] ==> !(m == Quote && s[0] == '\'') && !(m == Dash && s[0] == '-')
    ensures WellCut(m, Scan(s, m == In))
    decreases |s|
  {
    if s == [] {
    } else if m == In && s[0] == '\'' && |s| > 1 && s[1] == '\'' {
      ScanCutsWell(In, s[2..]);
      var rest := Scan(s[2..], true);
      WellCutPush(Quote, '\'', rest);
      WellCutPush(In, '\'', Push("'", rest));
      PushPush("'", "'", rest);
    } else if m != In && s[0] == '-' && |s| > 1 && s[1] == '-' {
      ScanCutsWell(m, SkipLine(s[2..]));
    } else if m != In && s[0] == ';' {
      ScanCutsWell(Out, s[1..]);
    } else {
      ScanCutsWell(Next(m, s[0]), s[1..]);
      WellCutPush(m, s[0], Scan(s[1..], Next(m, s[0]) == In));
    }
  }

  // ---------- Trimming ----------

  lemma TrimKeepsMode(p: string)
    requires After(Out, p) != Bad
    ensures After(Out, Trim(p)) != Bad
    ensures Balanced(p) ==> Balanced(Trim(p))
  {
    var lead, trail := TrimSplits(p);
    var body := Trim(p);
    AfterConcat(Out, lead + body, trail);
    AfterConcat(Out, lead, body);
    AfterBlank(Out, lead);
    AfterBlank(After(Out, body), trail);
    BadStays(trail);
  }

  lemma {:induction false} StatementsCutWell(pieces: seq<string>)
    requires pieces != [] && WellCut(Out, pieces) && Statements(pieces) != []
    ensures WellCut(Out, Statements(pieces))
  {
    TrimKeepsMode(pieces[0]);
    if |pieces| > 1 && Statements(pieces[1..]) != [] {
      StatementsCutWell(pieces[1..]);
      if Trim(pieces[0]) != [] {
        assert Statements(pieces)[1..] == Statements(pieces[1..]);
      } else {
        assert Statements(pieces) == Statements(pieces[1..]);
      }
    }
  }

  predicate AllTrimmed(statements: seq<string>)
  {
    forall i :: 0 <= i < |statements| ==> statements[i] != [] && Trimmed(statements[i])
  }

  lemma {:induction false} StatementsAreTrimmed(pieces: seq<string>)
    ensures AllTrimmed(Statements(pieces))
  {
    if pieces != [] {
      StatementsAreTrimmed(pieces[1..]);
      var lead, trail := TrimSplits(pieces[0]);
    }
  }

  lemma {:induction false} StatementsOfTrimmed(statements: seq<string>)
    requires AllTrimmed(statements)
    ensures Statements(statements) == statements
  {
    if statements != [] {
      StatementsOfTrimmed(statements[1..]);
      TrimUnique([], statements[0], []);
      assert [] + statements[0] + [] == statements[0];
    }
  }

  // ---------- Idempotence ----------

  function Join(statements: seq<string>): string
  {
    if statements == [] then ""
    else if |statements| == 1 then statements[0]
    else statements[0] + ";" + Join(statements[1..])
  }

  lemma {:induction false} ScanJoin(pieces: seq<string>)
    requires pieces != [] && WellCut(Out, pieces)
    ensures Scan(Join(pieces), false) == pieces
  {
    var p := pieces[0];
    if |pieces| == 1 {
      ScanCopies(Out, p, []);
      assert p + [] == p && p + "" == p;
    } else {
      var t := ";" + Join(pieces[1..]);
      assert Join(pieces) == p + t;
      ScanCopies(Out, p, t);
      ScanJoin(pieces[1..]);
      assert t[1..] == Join(pieces[1..]) && p + "" == p;
    }
  }

  /**
   Splitting is idempotent on every input, unterminated literals included: removing comments and
   trimming never creates a new literal, comment or statement boundary.
   */
  lemma SplitIdempotent(s: string)
    ensures Split(Join(Split(s))) == Split(s)
  {
    ScanCutsWell(Out, s);
    var out := Split(s);
    StatementsAreTrimmed(Scan(s, false));
    if out == [] {
      TailStatement("");
      assert Trim("") == "";
    } else {
      StatementsCutWell(Scan(s, false));
      ScanJoin(out);
      StatementsOfTrimmed(out);
    }
  }

  // ---------- Round trip ----------

  /** What a migration file is printed from. */
  datatype Item = Statement(text: string) | BlankStatement(space: string) | Comment(text: string) | Space(space: string)

  predicate ValidItem(item: Item)
  {
    match item
    case Statement(text) => text != [] && Trimmed(text) && Balanced(text)
    case BlankStatement(space) => Blank(space)
    case Comment(text) => '\n' !in text
    case Space(space) => Blank(space)
  }

  function PrintItem(item: Item): string
  {
    match item
    case Statement(text) => text + ";"
    case BlankStatement(space) => space + ";"
    case Comment(text) => "--" + text + "\n"
    case Space(space) => space
  }

  function Print(items: seq<Item>): string
  {
    if items == [] then "" else PrintItem(items[0]) + Print(items[1..])
  }

  function Texts(items: seq<Item>): seq<string>
  {
    if items == [] then []
    else (if items[0].Statement? then [items[0].text] else []) + Texts(items[1..])
  }

  lemma {:induction false} ScanBlank(space: string, t: string)
    requires Blank(space)
    ensures Scan(space + t, false) == Push(space, Scan(t, false))
  {
    if space == [] {
      assert space + t == t;
      PushEmpty(Scan(t, false));
    } else {
      assert (space + t)[1..] == space[1..] + t && space == [space[0]] + space[1..];
      ScanBlank(space[1..], t);
      PushPush([space[0]], space[1..], Scan(t, false));
    }
  }

  lemma {:induction false} SkipLineStops(text: string, t: string)
    requires '\n' !in text
    ensures SkipLine(text + "\n" + t) == "\n" + t
  {
    if text == [] {
      assert text + "\n" + t == "\n" + t;
    } else {
      assert (text + "\n" + t)[1..] == text[1..] + "\n" + t;
      SkipLineStops(text[1..], t);
    }
  }

  lemma BlankIsNotReported(s: string)
    requires Blank(s)
    ensures Statements([s]) == []
  {
    TrimUnique(s, "", "");
    assert s + "" + "" == s;
    TailStatement(s);
  }

  lemma TextIsReported(lead: string, text: string)
    requires Blank(lead) && text != [] && Trimmed(text)
    ensures Statements([lead + text]) == [text]
  {
    TrimUnique(lead, text, "");
    assert lead + text + "" == lead + text;
    TailStatement(lead + text);
  }

  lemma PrintedStatement(lead: string, text: string, rest: string)
    requires Blank(lead) && ValidItem(Statement(text))
    ensures Pending(lead, text + ";" + rest, false) == [text] + Pending("", rest, false)
  {
    var t := ";" + rest;
    assert text + ";" + rest == text + t;
    ScanCopies(Out, text, t);
    PushPush(lead, text, Scan(t, false));
    PendingOutside(lead + text, t);
    assert t[1..] == rest;
    TextIsReported(lead, text);
  }

  lemma PrintedBlank(lead: string, space: string, rest: string)
    requires Blank(lead) && Blank(space)
    ensures Pending(lead, space + ";" + rest, false) == Pending("", rest, false)
  {
    var t := ";" + rest;
    assert space + ";" + rest == space + t;
    ScanBlank(space, t);
    PushPush(lead, space, Scan(t, false));
    PendingOutside(lead + space, t);
    assert t[1..] == rest;
    BlankConcat(lead, space);
    BlankIsNotReported(lead + space);
  }

  lemma PrintedComment(lead: string, text: string, rest: string)
    requires '\n' !in text
    ensures Pending(lead, "--" + text + "\n" + rest, false) == Pending(lead + "\n", rest, false)
  {
    var s := "--" + text + "\n" + rest;
    assert s[2..] == text + "\n" + rest;
    SkipLineStops(text, rest);
    PendingOutside(lead, s);
    PendingOutside(lead, "\n" + rest);
    assert ("\n" + rest)[..1] == "\n" && ("\n" + rest)[1..] == rest;
  }

  /** One printed item reports its statement, if it is one, and leaves only white space pending. */
  lemma PrintedItem(lead: string, item: Item, rest: string) returns (lead': string)
    requires Blank(lead) && ValidItem(item)
    ensures Blank(lead') && Pending(lead, PrintItem(item) + rest, false) == Texts([item]) + Pending(lead', rest, false)
  {
    assert [item][1..] == [];
    lead' := "";
    match item
    case Statement(text) => PrintedStatement(lead, text, rest);
    case BlankStatement(space) => PrintedBlank(lead, space, rest);
    case Comment(text) =>
      PrintedComment(lead, text, rest);
      lead' := lead + "\n";
    case Space(space) =>
      PrintedSpace(lead, space, rest);
      lead' := lead + space;
  }

  lemma PrintedSpace(lead: string, space: string, rest: string)
    requires Blank(space)
    ensures Pending(lead, space + rest, false) == Pending(lead + space, rest, false)
  {
    ScanBlank(space, rest);
    PushPush(lead, space, Scan(rest, false));
  }

  /** With only white space pending, `end` is reported as `last`. */
  ghost predicate EndsIn(end: string, last: seq<string>)
  {
    forall space :: Blank(space) ==> Pending(space, end, false) == last
  }

  lemma {:induction false} PrintSplits(lead: string, items: seq<Item>, end: string, last: seq<string>)
    requires Blank(lead) && EndsIn(end, last)
    requires forall i :: 0 <= i < |items| ==> ValidItem(items[i])
    ensures Pending(lead, Print(items) + end, false) == Texts(items) + last
    decreases |items|
  {
    if items == [] {
      assert Print(items) + end == end;
    } else {
      var rest := Print(items[1..]) + end;
      PrintCons(items, end, last);
      var lead' := PrintedItem(lead, items[0], rest);
      PrintSplits(lead', items[1..], end, last);
    }
  }

  lemma PrintCons(items: seq<Item>, end: string, last: seq<string>)
    requires items != []
    ensures Print(items) + end == PrintItem(items[0]) + (Print(items[1..]) + end)
    ensures Texts(items) + last == Texts([items[0]]) + (Texts(items[1..]) + last)
  {
    assert [items[0]][1..] == [];
  }

  // ---------- The end of the file ----------

  /** What may follow the last `;`: a statement without one, white space, a comment without a line break. */
  datatype Tail = Tail(text: string, space: string, comment: Option<string>)

  /** The text may even end inside a literal, if nothing follows it. */
  predicate ValidTail(tail: Tail)
  {
    && Trimmed(tail.text) && After(Out, tail.text) != Bad
    && Blank(tail.space) && (tail.comment.Some? ==> '\n' !in tail.comment.value)
    && (tail.space != [] || tail.comment.Some? ==> Closed(After(Out, tail.text)))
    && (tail.comment.Some? && tail.space == [] ==> After(Out, tail.text) != Dash)
  }

  function PrintTail(tail: Tail): string
  {
    tail.text + tail.space + if tail.comment.Some? then "--" + tail.comment.value else ""
  }

  function LastText(tail: Tail): seq<string> { if tail.text == [] then [] else [tail.text] }

  lemma {:induction false} SkipLineToEnd(text: string)
    requires '\n' !in text
    ensures SkipLine(text) == ""
  {
    if text != [] {
      SkipLineToEnd(text[1..]);
    }
  }

  /** The tail is scanned to its text and white space. */
  lemma ScanTail(tail: Tail)
    requires ValidTail(tail)
    ensures Scan(PrintTail(tail), false) == [tail.text + tail.space]
  {
    var p := tail.text + tail.space;
    AfterConcat(Out, tail.text, tail.space);
    AfterBlank(After(Out, tail.text), tail.space);
    if tail.comment.None? {
      ScanCopies(Out, p, "");
      assert PrintTail(tail) == p + "" == p;
    } else {
      var t := "--" + tail.comment.value;
      ScanCopies(Out, p, t);
      assert t[2..] == tail.comment.value;
      SkipLineToEnd(tail.comment.value);
      assert PrintTail(tail) == p + t && p + "" == p;
    }
  }

  lemma TailSplits(lead: string, tail: Tail)
    requires Blank(lead) && ValidTail(tail)
    ensures Pending(lead, PrintTail(tail), false) == LastText(tail)
  {
    ScanTail(tail);
    TrimUnique(lead, tail.text, tail.space);
    assert lead + (tail.text + tail.space) == lead + tail.text + tail.space;
    TailStatement(lead + (tail.text + tail.space));
  }

  /**
   Round trip: printing statements with `;`, with any blank statements, comments and white space
   around them and any last statement left open, and splitting the file gives the statements back,
   every literal intact.
   */
  lemma PrintThenSplit(items: seq<Item>, tail: Tail)
    requires (forall i :: 0 <= i < |items| ==> ValidItem(items[i])) && ValidTail(tail)
    ensures Split(Print(items) + PrintTail(tail)) == Texts(items) + LastText(tail)
  {
    forall space | Blank(space) ensures Pending(space, PrintTail(tail), false) == LastText(tail) {
      TailSplits(space, tail);
    }
    PrintSplits("", items, PrintTail(tail), LastText(tail));
    PushEmpty(Scan(Print(items) + PrintTail(tail), false));
  }
}
