/** The harness's loader of one migration file, and what its callers may rely on. */
module HarnessLoader {
  import opened SqlText
  import opened Splitter
  import opened SplitterLaws
  import opened HarnessSplitter
  import opened SplittersAgree

  // ---------- Lines and pieces ----------

  /** A line ends at a line feed or a carriage return and line feed, neither of which is part of it. */
  lemma LinesCut(line: string, ending: string, rest: string)
    requires '\n' !in line && (ending == "\r\n" || (ending == "\n" && (line == [] || line[|line| - 1] != '\r')))
    ensures Lines(line + ending + rest) == [line] + Lines(rest)
  {
    var s, n := line + ending + rest, |line| + |ending| - 1;
    assert s[n] == '\n' && s[n + 1..] == rest && s[..n] == line + ending[..|ending| - 1];
    assert '\n' !in s[..n];
    assert LineEnd(s) == n;
    if ending == "\r\n" {
      assert s[..n] == line + "\r" && DropCr(line + "\r") == line;
    } else {
      assert s[..n] == line;
    }
  }

  /** A last line without a line feed is taken whole. */
  lemma LastLineWhole(line: string)
    requires '\n' !in line && line != []
    ensures Lines(line) == [line]
  {
  }

  predicate PlainLine(line: string) { line != [] && '\n' !in line && line[|line| - 1] != '\r' }

  /** Joined lines stay apart: reading the joined text gives them back. */
  lemma {:induction false} JoinedLinesComeBack(lines: seq<string>)
    requires forall i :: 0 <= i < |lines| ==> PlainLine(lines[i])
    ensures Lines(JoinLines(lines)) == lines
  {
    if |lines| == 1 {
      assert PlainLine(lines[0]);
      LastLineWhole(lines[0]);
    } else if |lines| > 1 {
      assert PlainLine(lines[0]);
      JoinedLinesComeBack(lines[1..]);
      LinesCut(lines[0], "\n", JoinLines(lines[1..]));
    }
  }

  /** No blank line is kept. */
  lemma {:induction false} CodeLinesAreNotBlank(lines: seq<string>)
    ensures forall i :: 0 <= i < |CodeLines(lines)| ==> !Blank(CodeLines(lines)[i])
  {
    if lines != [] {
      CodeLinesAreNotBlank(lines[1..]);
      var code := Strip(lines[0], false);
      if Blank(code) {
        TrimUnique(code, "", "");
        assert code + "" + "" == code;
      }
    }
  }

  /** The pieces are the text between the `;`s. */
  lemma {:induction false} PlainSplitJoins(s: string)
    ensures Join(PlainSplit(s)) == s && !HasSemicolon(PlainSplit(s))
  {
    PlainSplitHasNone(s);
    if s != [] {
      var rest := PlainSplit(s[1..]);
      PlainSplitJoins(s[1..]);
      if s[0] == ';' {
        assert ([""] + rest)[1..] == rest;
        assert Join([""] + rest) == "" + ";" + Join(rest);
      } else {
        assert Push([s[0]], rest)[1..] == rest[1..];
        assert Join(Push([s[0]], rest)) == [s[0]] + Join(rest);
      }
    }
  }

  // ---------- The loader ----------

  /** One more line moves from the rest to the code kept. */
  lemma CodeLinesAt(done: seq<string>, lines: seq<string>, i: nat)
    requires i < |lines|
    ensures var code := Strip(lines[i], false);
            done + CodeLines(lines[i..])
            == (if Trim(code) == [] then done else done + [code]) + CodeLines(lines[i + 1..])
  {
    assert lines[i..][1..] == lines[i + 1..];
  }

  /** Strips each line and keeps the ones that are not blank. */
  method CollectCode(lines: seq<string>) returns (kept: seq<string>)
    ensures kept == CodeLines(lines)
  {
    kept := [];
    ghost var all := CodeLines(lines);
    assert lines[0..] == lines;
    var i := 0;
    while i < |lines|
      invariant 0 <= i <= |lines|
      invariant kept + CodeLines(lines[i..]) == all
    {
      CodeLinesAt(kept, lines, i);
      var code := StripInlineComment(lines[i]);
      if Trim(code) != [] {
        kept := kept + [code];
      }
      i := i + 1;
    }
    assert lines[i..] == [];
  }

  /** One more piece moves from the rest to what has been reported. */
  lemma StatementsAt(done: seq<string>, pieces: seq<string>, i: nat)
    requires i < |pieces|
    ensures done + Statements(pieces[i..]) == (done + Statements([pieces[i]])) + Statements(pieces[i + 1..])
  {
    assert pieces[i..] == [pieces[i]] + pieces[i + 1..];
    StatementsCons(pieces[i], pieces[i + 1..]);
  }

  method CollectPieces(pieces: seq<string>) returns (statements: seq<string>)
    ensures statements == Statements(pieces)
  {
    statements := [];
    ghost var all := Statements(pieces);
    assert pieces[0..] == pieces;
    var i := 0;
    while i < |pieces|
      invariant 0 <= i <= |pieces|
      invariant statements + Statements(pieces[i..]) == all
    {
      StatementsAt(statements, pieces, i);
      statements := Flush(pieces[i], statements);
      i := i + 1;
    }
    assert pieces[i..] == [];
  }

  lemma {:induction false} TrimmingAddsNoSemicolon(pieces: seq<string>)
    requires !HasSemicolon(pieces)
    ensures !HasSemicolon(Statements(pieces))
  {
    if pieces != [] {
      TrimmingAddsNoSemicolon(pieces[1..]);
      var lead, trail := TrimSplits(pieces[0]);
      if Trim(pieces[0]) != [] {
        assert Statements(pieces)[1..] == Statements(pieces[1..]);
      } else {
        assert Statements(pieces) == Statements(pieces[1..]);
      }
    }
  }

  /**
   The harness's statements of one file, before it adapts the keyspace. Lines and pieces are the
   standard library's. What it reports is trimmed, non-empty and free of `;`, and is what the
   migrator runs, white space aside, whenever no literal contains `;` and no line is cut differently
   from inside a literal; with a `;` in a literal it never is.
   */
  method LoadStatements(raw: string) returns (statements: seq<string>)
    ensures statements == HarnessSplit(raw)
    ensures AllTrimmed(statements) && !HasSemicolon(statements)
    ensures LiteralsLack(raw, ';', false) && CutsAgree(raw, false) ==> EraseEach(statements) == EraseEach(Split(raw))
    ensures !LiteralsLack(raw, ';', false) ==> EraseEach(statements) != EraseEach(Split(raw))
  {
    var kept := CollectCode(Lines(raw));
    var pieces := PlainSplit(JoinLines(kept));
    statements := CollectPieces(pieces);
    StatementsAreTrimmed(pieces);
    PlainSplitHasNone(JoinLines(kept));
    TrimmingAddsNoSemicolon(pieces);
    if !LiteralsLack(raw, ';', false) {
      SemicolonsSeparate(raw);
    } else if CutsAgree(raw, false) {
      SplittersAgreeOn(raw);
    }
  }
}
