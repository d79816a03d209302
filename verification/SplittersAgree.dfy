/** Where the migrator's splitter and the test harness's agree, and that a `;` in a literal parts them. */
module SplittersAgree {
  import opened SqlText
  import opened Splitter
  import opened HarnessSplitter

  // ---------- Erasing white space ----------

  function Erase(s: string): string
  {
    if s == [] then "" else (if IsSpace(s[0]) then "" else [s[0]]) + Erase(s[1..])
  }

  function EraseEach(pieces: seq<string>): (r: seq<string>)
    ensures |r| == |pieces|
  {
    if pieces == [] then [] else [Erase(pieces[0])] + EraseEach(pieces[1..])
  }

  function NonEmpty(pieces: seq<string>): seq<string>
  {
    if pieces == [] then [] else (if pieces[0] == [] then [] else [pieces[0]]) + NonEmpty(pieces[1..])
  }

  lemma {:induction false} EraseConcat(a: string, b: string)
    ensures Erase(a + b) == Erase(a) + Erase(b)
  {
    if a == [] {
      assert a + b == b;
    } else {
      assert (a + b)[1..] == a[1..] + b;
      EraseConcat(a[1..], b);
    }
  }

  lemma {:induction false} EraseBlank(s: string)
    ensures Blank(s) <==> Erase(s) == ""
  {
    if s != [] {
      EraseBlank(s[1..]);
      assert s == [s[0]] + s[1..];
    }
  }

  lemma EraseTrim(s: string)
    ensures Erase(Trim(s)) == Erase(s)
    ensures Trim(s) == [] <==> Erase(s) == []
  {
    var lead, trail := TrimSplits(s);
    EraseConcat(lead + Trim(s), trail);
    EraseConcat(lead, Trim(s));
    EraseBlank(lead);
    EraseBlank(trail);
    EraseBlank(Trim(s));
  }

  lemma {:induction false} EraseStatements(pieces: seq<string>)
    ensures EraseEach(Statements(pieces)) == NonEmpty(EraseEach(pieces))
  {
    if pieces != [] {
      EraseTrim(pieces[0]);
      EraseStatements(pieces[1..]);
      if Trim(pieces[0]) == [] {
        assert Statements(pieces) == Statements(pieces[1..]);
      } else {
        assert Statements(pieces)[1..] == Statements(pieces[1..]);
      }
    }
  }

  // ---------- Gluing lists of pieces ----------

  /** The pieces of a text cut in two: the last piece of the first and the first of the second are one. */
  function Glue(a: seq<string>, b: seq<string>): (r: seq<string>)
    requires a != [] && b != []
    ensures r != []
  {
    if |a| == 1 then Push(a[0], b) else [a[0]] + Glue(a[1..], b)
  }

  lemma GluePush(c: string, a: seq<string>, b: seq<string>)
    requires a != [] && b != []
    ensures Glue(Push(c, a), b) == Push(c, Glue(a, b))
  {
    if |a| == 1 {
      PushPush(c, a[0], b);
    } else {
      assert Push(c, a)[1..] == a[1..];
    }
  }

  lemma {:induction false} EraseGlue(a: seq<string>, b: seq<string>)
    requires a != [] && b != []
    ensures EraseEach(Glue(a, b)) == Glue(EraseEach(a), EraseEach(b))
    decreases |a|
  {
    if |a| == 1 {
      EraseConcat(a[0], b[0]);
      assert EraseEach(a) == [Erase(a[0])];
    } else {
      EraseGlue(a[1..], b);
      assert EraseEach(a)[1..] == EraseEach(a[1..]);
    }
  }

  lemma {:induction false} GlueEmpty(a: seq<string>)
    requires a != []
    ensures Glue([""], a) == a && Glue(a, [""]) == a
    decreases |a|
  {
    PushEmpty(a);
    if |a| == 1 {
      assert a[0] + "" == a[0];
    } else {
      GlueEmpty(a[1..]);
    }
  }

  /** The pieces of a text with white space erased. */
  function Erased(s: string): (r: seq<string>)
    ensures r != []
  {
    EraseEach(PlainSplit(s))
  }

  lemma {:induction false} PlainSplitConcat(a: string, b: string)
    ensures PlainSplit(a + b) == Glue(PlainSplit(a), PlainSplit(b))
  {
    if a == [] {
      assert a + b == b;
      PushEmpty(PlainSplit(b));
    } else {
      assert (a + b)[1..] == a[1..] + b;
      PlainSplitConcat(a[1..], b);
      if a[0] == ';' {
        assert ([""] + PlainSplit(a[1..]))[1..] == PlainSplit(a[1..]);
      } else {
        GluePush([a[0]], PlainSplit(a[1..]), PlainSplit(b));
      }
    }
  }

  lemma ErasedConcat(a: string, b: string)
    ensures Erased(a + b) == Glue(Erased(a), Erased(b))
  {
    PlainSplitConcat(a, b);
    EraseGlue(PlainSplit(a), PlainSplit(b));
  }

  lemma {:induction false} ErasedBlank(s: string)
    requires Blank(s)
    ensures Erased(s) == [""]
  {
    if s != [] {
      var rest := PlainSplit(s[1..]);
      ErasedBlank(s[1..]);
      assert Blank([s[0]]);
      EraseConcat([s[0]], rest[0]);
      EraseBlank([s[0]]);
      assert Push([s[0]], rest)[1..] == rest[1..];
    }
  }

  // ---------- One line ----------

  /** No string literal contains `c`. */
  predicate LiteralsLack(s: string, c: char, inString: bool)
    decreases |s|
  {
    if s == [] then true
    else if inString then
      && s[0] != c
      && (if s[0] != '\'' then LiteralsLack(s[1..], c, true)
          else if |s| > 1 && s[1] == '\'' then LiteralsLack(s[2..], c, true)
          else LiteralsLack(s[1..], c, false))
    else if s[0] == '-' && |s| > 1 && s[1] == '-' then LiteralsLack(SkipLine(s[2..]), c, false)
    else LiteralsLack(s[1..], c, s[0] == '\'')
  }

  /** Whether a literal is open at the end of a line. */
  predicate LeavesOpen(line: string, inString: bool)
    decreases |line|
  {
    if line == [] then inString
    else if line[0] == '\'' then LeavesOpen(line[1..], !inString)
    else if line[0] == '-' && !inString && |line| > 1 && line[1] == '-' then false
    else LeavesOpen(line[1..], inString)
  }

  /** Every line is cut at the same place whether or not it begins inside a literal. */
  predicate CutsAgree(s: string, inString: bool)
    decreases |s|
  {
    if s == [] then true
    else
      var n := LineEnd(s);
      && Strip(s[..n], inString) == Strip(s[..n], false)
      && (n < |s| ==> CutsAgree(s[n + 1..], LeavesOpen(s[..n], inString)))
  }

  lemma {:induction false} SkipLineToEnd(line: string, tail: string)
    requires '\n' !in line && (tail == [] || tail[0] == '\n')
    ensures SkipLine(line + tail) == tail
  {
    if line == [] {
      assert line + tail == tail;
    } else {
      assert (line + tail)[1..] == line[1..] + tail;
      SkipLineToEnd(line[1..], tail);
    }
  }

  /** Up to the end of a line, the migrator's splitter sees what cutting the line at its comment keeps. */
  lemma {:induction false} ScanLine(line: string, tail: string, inString: bool)
    requires '\n' !in line && (tail == [] || tail[0] == '\n') && LiteralsLack(line + tail, ';', inString)
    ensures Scan(line + tail, inString)
            == Glue(PlainSplit(Strip(line, inString)), Scan(tail, LeavesOpen(line, inString)))
    ensures LiteralsLack(tail, ';', LeavesOpen(line, inString))
    decreases |line|
  {
    var s, end := line + tail, Scan(tail, LeavesOpen(line, inString));
    if line == [] {
      assert s == tail;
      PushEmpty(end);
    } else if inString && line[0] == '\'' && |line| > 1 && line[1] == '\'' {
      assert s[2..] == line[2..] + tail && line[1..][1..] == line[2..];
      ScanLine(line[2..], tail, true);
      EscapeCopies(line, end);
    } else if !inString && line[0] == '-' && |line| > 1 && line[1] == '-' {
      assert s[2..] == line[2..] + tail;
      SkipLineToEnd(line[2..], tail);
      PushEmpty(end);
    } else {
      var next := if line[0] == '\'' then !inString else inString;
      assert s[1..] == line[1..] + tail;
      ScanLine(line[1..], tail, next);
      var rest := Strip(line[1..], next);
      assert Strip(line, inString) == [line[0]] + rest;
      if line[0] == ';' {
        assert ([line[0]] + rest)[1..] == rest;
        assert ([""] + PlainSplit(rest))[1..] == PlainSplit(rest);
      } else {
        PlainCopies(line[0], rest, end);
      }
    }
  }

  lemma EscapeCopies(line: string, end: seq<string>)
    requires |line| > 1 && line[0] == '\'' && line[1] == '\'' && end != []
    ensures Glue(PlainSplit(Strip(line, true)), end) == Push("''", Glue(PlainSplit(Strip(line[2..], true)), end))
  {
    var rest := Strip(line[2..], true);
    assert line[1..][1..] == line[2..];
    assert Strip(line, true) == "'" + ("'" + rest);
    PlainCopies('\'', "'" + rest, end);
    PlainCopies('\'', rest, end);
    PushPush("'", "'", Glue(PlainSplit(rest), end));
    assert "'" + "'" == "''";
  }

  lemma PlainCopies(c: char, rest: string, end: seq<string>)
    requires c != ';' && end != []
    ensures Glue(PlainSplit([c] + rest), end) == Push([c], Glue(PlainSplit(rest), end))
  {
    assert ([c] + rest)[1..] == rest;
    GluePush([c], PlainSplit(rest), end);
  }

  /** A carriage return before the line break makes no difference. */
  lemma {:induction false} StripDropsCr(line: string, inString: bool)
    ensures Erased(Strip(DropCr(line), inString)) == Erased(Strip(line, inString))
    decreases |line|
  {
    var n := |line| - 1;
    if line != [] && line[n] == '\r' && n > 0 && !(line[0] == '-' && !inString && line[1] == '-') {
      var next := if line[0] == '\'' then !inString else inString;
      assert DropCr(line)[1..] == DropCr(line[1..]);
      StripDropsCr(line[1..], next);
      ErasedConcat([line[0]], Strip(line[1..], next));
      ErasedConcat([line[0]], Strip(DropCr(line[1..]), next));
    } else if line == "\r" {
      assert Strip(line, inString) == "\r";
      ErasedBlank("\r");
    }
  }

  // ---------- The whole file ----------

  lemma {:induction false} ErasedJoin(line: string, lines: seq<string>)
    ensures Erased(JoinLines(CodeLines([line] + lines)))
            == Glue(Erased(Strip(line, false)), Erased(JoinLines(CodeLines(lines))))
  {
    var code, rest := Strip(line, false), CodeLines(lines);
    assert ([line] + lines)[1..] == lines;
    if Trim(code) == [] {
      var lead, trail := TrimSplits(code);
      ErasedBlank(code);
      GlueEmpty(Erased(JoinLines(rest)));
      assert CodeLines([line] + lines) == rest;
    } else if rest == [] {
      GlueEmpty(Erased(code));
      assert CodeLines([line] + lines) == [code];
      ErasedBlank("");
    } else {
      assert CodeLines([line] + lines) == [code] + rest;
      assert ([code] + rest)[1..] == rest;
      assert code + "\n" + JoinLines(rest) == code + ("\n" + JoinLines(rest));
      ErasedConcat(code, "\n" + JoinLines(rest));
      ErasedConcat("\n", JoinLines(rest));
      ErasedBlank("\n");
      GlueEmpty(Erased(JoinLines(rest)));
    }
  }

  /** What each splitter cuts a text into, white space erased. */
  function LexerPieces(s: string, inString: bool): (r: seq<string>)
    ensures r != []
  {
    EraseEach(Scan(s, inString))
  }

  function HarnessPieces(s: string): (r: seq<string>)
    ensures r != []
  {
    Erased(JoinLines(CodeLines(Lines(s))))
  }

  lemma LexerLastLine(line: string, inString: bool)
    requires '\n' !in line && LiteralsLack(line, ';', inString)
    ensures LexerPieces(line, inString) == Erased(Strip(line, inString))
  {
    assert line + "" == line;
    ScanLine(line, "", inString);
    GlueEmpty(PlainSplit(Strip(line, inString)));
  }

  lemma LexerLine(line: string, rest: string, inString: bool)
    requires '\n' !in line && LiteralsLack(line + ("\n" + rest), ';', inString)
    ensures var open := LeavesOpen(line, inString);
            && LiteralsLack(rest, ';', open)
            && LexerPieces(line + ("\n" + rest), inString)
               == Glue(Erased(Strip(line, inString)), LexerPieces(rest, open))
  {
    var tail, open := "\n" + rest, LeavesOpen(line, inString);
    assert tail[1..] == rest;
    ScanLine(line, tail, inString);
    EraseGlue(PlainSplit(Strip(line, inString)), Scan(tail, open));
    EraseNewline(rest, open);
  }

  lemma EraseNewline(rest: string, inString: bool)
    ensures EraseEach(Push("\n", Scan(rest, inString))) == EraseEach(Scan(rest, inString))
  {
    var pieces := Scan(rest, inString);
    EraseConcat("\n", pieces[0]);
    EraseBlank("\n");
    assert Blank("\n") && "" + Erase(pieces[0]) == Erase(pieces[0]);
    assert Push("\n", pieces)[1..] == pieces[1..];
  }

  lemma HarnessLastLine(line: string)
    requires '\n' !in line
    ensures HarnessPieces(line) == Erased(Strip(line, false))
  {
    if line != [] {
      ErasedJoin(line, []);
      ErasedBlank("");
      GlueEmpty(Erased(Strip(line, false)));
      assert [line] + [] == [line];
    }
  }

  lemma HarnessLine(line: string, rest: string)
    requires '\n' !in line
    ensures HarnessPieces(line + ("\n" + rest)) == Glue(Erased(Strip(line, false)), HarnessPieces(rest))
  {
    var s := line + ("\n" + rest);
    assert s[|line|] == '\n' && s[..|line|] == line && s[|line| + 1..] == rest;
    assert LineEnd(s) == |line|;
    StripDropsCr(line, false);
    ErasedJoin(DropCr(line), Lines(rest));
  }

  lemma {:induction false} PiecesAgree(raw: string, inString: bool)
    requires LiteralsLack(raw, ';', inString) && CutsAgree(raw, inString)
    ensures LexerPieces(raw, inString) == HarnessPieces(raw)
    decreases |raw|
  {
    if raw != [] {
      var n := LineEnd(raw);
      var line := raw[..n];
      if n == |raw| {
        assert line == raw;
        LexerLastLine(raw, inString);
        HarnessLastLine(raw);
      } else {
        var rest := raw[n + 1..];
        assert raw == line + ("\n" + rest);
        LexerLine(line, rest, inString);
        HarnessLine(line, rest);
        PiecesAgree(rest, LeavesOpen(line, inString));
      }
    }
  }

  lemma Reported(raw: string)
    ensures EraseEach(Split(raw)) == NonEmpty(LexerPieces(raw, false))
    ensures EraseEach(HarnessSplit(raw)) == NonEmpty(HarnessPieces(raw))
  {
    EraseStatements(Scan(raw, false));
    EraseStatements(PlainSplit(JoinLines(CodeLines(Lines(raw)))));
  }

  /**
   Both splitters report the same statements of every file whose literals contain no `;` and whose
   lines are cut at the same place whether or not they begin inside a literal.
   */
  lemma SplittersAgreeOn(raw: string)
    requires LiteralsLack(raw, ';', false) && CutsAgree(raw, false)
    ensures EraseEach(Split(raw)) == EraseEach(HarnessSplit(raw))
  {
    PiecesAgree(raw, false);
    Reported(raw);
  }

  // ---------- A `;` inside a literal ----------

  predicate HasSemicolon(pieces: seq<string>)
  {
    pieces != [] && (';' in pieces[0] || HasSemicolon(pieces[1..]))
  }

  lemma {:induction false} ScanKeepsSemicolon(s: string, inString: bool)
    requires !LiteralsLack(s, ';', inString)
    ensures HasSemicolon(Scan(s, inString))
    decreases |s|
  {
    if inString && s[0] == '\'' && |s| > 1 && s[1] == '\'' {
      ScanKeepsSemicolon(s[2..], true);
      PushSemicolon("''", Scan(s[2..], true));
    } else if inString && s[0] == ';' {
      assert ';' in Scan(s, true)[0];
    } else if !inString && s[0] == '-' && |s| > 1 && s[1] == '-' {
      ScanKeepsSemicolon(SkipLine(s[2..]), false);
    } else {
      var next := if s[0] == '\'' then !inString else inString;
      ScanKeepsSemicolon(s[1..], next);
      var rest := Scan(s[1..], next);
      if s[0] == ';' {
        assert ([""] + rest)[1..] == rest;
      } else {
        PushSemicolon([s[0]], rest);
      }
    }
  }

  lemma PushSemicolon(c: string, pieces: seq<string>)
    requires pieces != []
    ensures HasSemicolon(Push(c, pieces)) <==> ';' in c || HasSemicolon(pieces)
  {
    assert Push(c, pieces)[1..] == pieces[1..];
  }

  lemma {:induction false} PlainSplitHasNone(s: string)
    ensures !HasSemicolon(PlainSplit(s))
  {
    if s != [] {
      var rest := PlainSplit(s[1..]);
      PlainSplitHasNone(s[1..]);
      if s[0] == ';' {
        assert ([""] + rest)[1..] == rest;
      } else {
        PushSemicolon([s[0]], rest);
      }
    }
  }

  lemma {:induction false} EraseKeepsSemicolon(s: string)
    ensures ';' in Erase(s) <==> ';' in s
  {
    if s != [] {
      EraseKeepsSemicolon(s[1..]);
      assert s == [s[0]] + s[1..];
    }
  }

  lemma {:induction false} ReportKeepsSemicolon(pieces: seq<string>)
    ensures HasSemicolon(NonEmpty(EraseEach(pieces))) <==> HasSemicolon(pieces)
  {
    if pieces != [] {
      var rest := NonEmpty(EraseEach(pieces[1..]));
      ReportKeepsSemicolon(pieces[1..]);
      EraseKeepsSemicolon(pieces[0]);
      assert EraseEach(pieces)[1..] == EraseEach(pieces[1..]);
      if Erase(pieces[0]) == [] {
        assert NonEmpty(EraseEach(pieces)) == rest;
      } else {
        assert NonEmpty(EraseEach(pieces)) == [Erase(pieces[0])] + rest;
        assert ([Erase(pieces[0])] + rest)[1..] == rest;
      }
    }
  }

  /** A `;` inside a literal is kept by the migrator's splitter; no statement of the harness has one. */
  lemma SemicolonsSeparate(raw: string)
    requires !LiteralsLack(raw, ';', false)
    ensures EraseEach(Split(raw)) != EraseEach(HarnessSplit(raw))
  {
    var code := JoinLines(CodeLines(Lines(raw)));
    ScanKeepsSemicolon(raw, false);
    PlainSplitHasNone(code);
    ReportKeepsSemicolon(Scan(raw, false));
    ReportKeepsSemicolon(PlainSplit(code));
    Reported(raw);
  }

  // ---------- Literals within their lines ----------

  lemma {:induction false} LineCloses(line: string, tail: string, inString: bool)
    requires '\n' !in line && (tail == [] || tail[0] == '\n') && LiteralsLack(line + tail, '\n', inString)
    ensures LiteralsLack(tail, '\n', LeavesOpen(line, inString))
    ensures tail != [] ==> !LeavesOpen(line, inString)
    decreases |line|
  {
    var s := line + tail;
    if line == [] {
      assert s == tail;
    } else if inString && line[0] == '\'' && |line| > 1 && line[1] == '\'' {
      assert s[2..] == line[2..] + tail && line[1..][1..] == line[2..];
      assert LeavesOpen(line, true) == LeavesOpen(line[2..], true);
      LineCloses(line[2..], tail, true);
    } else if !inString && line[0] == '-' && |line| > 1 && line[1] == '-' {
      assert s[2..] == line[2..] + tail;
      SkipLineToEnd(line[2..], tail);
    } else {
      assert s[1..] == line[1..] + tail;
      LineCloses(line[1..], tail, if line[0] == '\'' then !inString else inString);
    }
  }

  lemma {:induction false} OneLineLiterals(raw: string)
    requires LiteralsLack(raw, '\n', false)
    ensures CutsAgree(raw, false)
    decreases |raw|
  {
    if raw != [] && LineEnd(raw) < |raw| {
      var n := LineEnd(raw);
      var tail := raw[n..];
      assert raw == raw[..n] + tail && tail[1..] == raw[n + 1..];
      LineCloses(raw[..n], tail, false);
      OneLineLiterals(raw[n + 1..]);
    }
  }

  /** When every literal ends on the line it begins on, only a `;` in a literal can part the splitters. */
  lemma OnOneLineLiterals(raw: string)
    requires LiteralsLack(raw, '\n', false)
    ensures EraseEach(Split(raw)) == EraseEach(HarnessSplit(raw)) <==> LiteralsLack(raw, ';', false)
  {
    OneLineLiterals(raw);
    if LiteralsLack(raw, ';', false) {
      SplittersAgreeOn(raw);
    } else {
      SemicolonsSeparate(raw);
    }
  }
}
