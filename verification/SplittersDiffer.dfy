/**
 What a line that begins inside a literal does to the two splitters: if the harness errs on one side
 only, agreement is exactly that no line is cut differently; if it errs on both, errors may cancel.
 */
module SplittersDiffer {
  import opened SqlText
  import opened Splitter
  import opened HarnessSplitter
  import opened SplittersAgree

  // ---------- Lines that begin inside a literal ----------

  /** The characters that are neither white space nor `;`. */
  function Ink(s: string): nat
  {
    if s == [] then 0 else (if IsSpace(s[0]) || s[0] == ';' then 0 else 1) + Ink(s[1..])
  }

  function Weight(pieces: seq<string>): nat
  {
    if pieces == [] then 0 else |pieces[0]| + Weight(pieces[1..])
  }

  lemma {:induction false} WeightGlue(a: seq<string>, b: seq<string>)
    requires a != [] && b != []
    ensures Weight(Glue(a, b)) == Weight(a) + Weight(b)
    decreases |a|
  {
    if |a| == 1 {
      assert Push(a[0], b)[1..] == b[1..];
    } else {
      WeightGlue(a[1..], b);
      assert Glue(a, b)[1..] == Glue(a[1..], b);
    }
  }

  lemma {:induction false} WeightNonEmpty(pieces: seq<string>)
    ensures Weight(NonEmpty(pieces)) == Weight(pieces)
  {
    if pieces != [] {
      WeightNonEmpty(pieces[1..]);
      if pieces[0] == [] {
        assert NonEmpty(pieces) == NonEmpty(pieces[1..]);
      } else {
        assert NonEmpty(pieces)[1..] == NonEmpty(pieces[1..]);
      }
    }
  }

  lemma {:induction false} WeightIsInk(s: string)
    ensures Weight(Erased(s)) == Ink(s)
  {
    if s != [] {
      WeightIsInk(s[1..]);
      var rest := PlainSplit(s[1..]);
      if s[0] == ';' {
        assert EraseEach([""] + rest)[1..] == EraseEach(rest);
      } else {
        EraseConcat([s[0]], rest[0]);
        assert EraseEach(Push([s[0]], rest))[1..] == EraseEach(rest)[1..];
      }
    }
  }

  lemma {:induction false} InkOfPrefix(s: string, m: nat, n: nat)
    requires m <= n <= |s|
    ensures Ink(s[..m]) <= Ink(s[..n])
    ensures m < n && s[m] == '-' ==> Ink(s[..m]) < Ink(s[..n])
    decreases m
  {
    if m == 0 {
      assert n > 0 ==> s[..n][0] == s[0];
    } else {
      InkOfPrefix(s[1..], m - 1, n - 1);
      assert s[..m][1..] == s[1..][..m - 1] && s[..n][1..] == s[1..][..n - 1];
    }
  }

  /** A cut leaves a beginning of the line and is made at a `-`. */
  lemma {:induction false} StripIsPrefix(line: string, inString: bool)
    ensures var n := |Strip(line, inString)|;
            && n <= |line| && Strip(line, inString) == line[..n] && (n < |line| ==> line[n] == '-')
    decreases |line|
  {
    if line == [] {
    } else if line[0] == '-' && !inString && |line| > 1 && line[1] == '-' {
      assert Strip(line, inString) == "" == line[..0];
    } else {
      var next := if line[0] == '\'' then !inString else inString;
      StripIsPrefix(line[1..], next);
      var n := |Strip(line[1..], next)|;
      assert Strip(line, inString) == [line[0]] + Strip(line[1..], next);
      assert line[..n + 1] == [line[0]] + line[1..][..n];
    }
  }

  lemma CutsWeigh(line: string, inString: bool)
    ensures var lexer, harness := Strip(line, inString), Strip(line, false);
            && (|harness| <= |lexer| ==> Ink(harness) <= Ink(lexer))
            && (|lexer| <= |harness| ==> Ink(lexer) <= Ink(harness))
            && (lexer != harness ==> Ink(lexer) != Ink(harness))
  {
    var m, n := |Strip(line, inString)|, |Strip(line, false)|;
    StripIsPrefix(line, inString);
    StripIsPrefix(line, false);
    if m <= n {
      InkOfPrefix(line, m, n);
    } else {
      InkOfPrefix(line, n, m);
    }
  }

  /** The harness never keeps more of a line than the migrator does, or never less. */
  predicate OneSided(s: string, inString: bool, harnessKeepsLess: bool)
    decreases |s|
  {
    if s == [] then true
    else
      var n := LineEnd(s);
      var lexer, harness := |Strip(s[..n], inString)|, |Strip(s[..n], false)|;
      && (if harnessKeepsLess then harness <= lexer else lexer <= harness)
      && (n < |s| ==> OneSided(s[n + 1..], LeavesOpen(s[..n], inString), harnessKeepsLess))
  }

  lemma CutsOfLine(line: string, rest: string, inString: bool)
    requires '\n' !in line
    ensures CutsAgree(line + ("\n" + rest), inString) <==>
            Strip(line, inString) == Strip(line, false) && CutsAgree(rest, LeavesOpen(line, inString))
  {
    var s := line + ("\n" + rest);
    assert s[|line|] == '\n' && s[..|line|] == line && s[|line| + 1..] == rest;
    assert LineEnd(s) == |line|;
  }

  lemma OneSidedOfLine(line: string, rest: string, inString: bool, harnessKeepsLess: bool)
    requires '\n' !in line
    ensures OneSided(line + ("\n" + rest), inString, harnessKeepsLess) <==>
            && (if harnessKeepsLess then |Strip(line, false)| <= |Strip(line, inString)|
                else |Strip(line, inString)| <= |Strip(line, false)|)
            && OneSided(rest, LeavesOpen(line, inString), harnessKeepsLess)
  {
    var s := line + ("\n" + rest);
    assert s[|line|] == '\n' && s[..|line|] == line && s[|line| + 1..] == rest;
    assert LineEnd(s) == |line|;
  }

  lemma CutsOfLastLine(line: string, inString: bool, harnessKeepsLess: bool)
    requires '\n' !in line && line != []
    ensures CutsAgree(line, inString) <==> Strip(line, inString) == Strip(line, false)
    ensures OneSided(line, inString, harnessKeepsLess) <==>
            if harnessKeepsLess then |Strip(line, false)| <= |Strip(line, inString)|
            else |Strip(line, inString)| <= |Strip(line, false)|
  {
    assert LineEnd(line) == |line| && line[..|line|] == line;
  }

  /** What differences on one side come to. */
  ghost predicate AddUp(raw: string, inString: bool, harnessKeepsLess: bool)
  {
    var lexer, harness := Weight(LexerPieces(raw, inString)), Weight(HarnessPieces(raw));
    && (if harnessKeepsLess then harness <= lexer else lexer <= harness)
    && (!CutsAgree(raw, inString) ==> lexer != harness)
  }

  lemma LineAddsUp(line: string, rest: string, inString: bool, harnessKeepsLess: bool)
    requires '\n' !in line && LiteralsLack(line + ("\n" + rest), ';', inString)
    requires OneSided(line + ("\n" + rest), inString, harnessKeepsLess)
    ensures LiteralsLack(rest, ';', LeavesOpen(line, inString))
    ensures OneSided(rest, LeavesOpen(line, inString), harnessKeepsLess)
    ensures AddUp(rest, LeavesOpen(line, inString), harnessKeepsLess) ==>
              AddUp(line + ("\n" + rest), inString, harnessKeepsLess)
  {
    CutsWeigh(line, inString);
    CutsOfLine(line, rest, inString);
    OneSidedOfLine(line, rest, inString, harnessKeepsLess);
    LineWeighs(line, rest, inString);
  }

  lemma LastLineAddsUp(line: string, inString: bool, harnessKeepsLess: bool)
    requires '\n' !in line && line != [] && LiteralsLack(line, ';', inString) && OneSided(line, inString, harnessKeepsLess)
    ensures AddUp(line, inString, harnessKeepsLess)
  {
    CutsWeigh(line, inString);
    CutsOfLastLine(line, inString, harnessKeepsLess);
    LastLineWeighs(line, inString);
  }

  lemma NothingAddsUp(inString: bool, harnessKeepsLess: bool)
    ensures AddUp("", inString, harnessKeepsLess)
  {
    assert Scan("", inString) == [""] && EraseEach([""]) == [""];
    assert JoinLines(CodeLines(Lines(""))) == "";
    ErasedBlank("");
    assert Weight([""]) == 0;
  }

  lemma FirstLineOf(raw: string) returns (line: string, rest: string)
    requires LineEnd(raw) < |raw|
    ensures raw == line + ("\n" + rest) && '\n' !in line && |rest| < |raw|
  {
    line, rest := raw[..LineEnd(raw)], raw[LineEnd(raw) + 1..];
  }

  /** Differences on one side add up. */
  lemma {:induction false} CutsAddUp(raw: string, inString: bool, harnessKeepsLess: bool)
    requires LiteralsLack(raw, ';', inString) && OneSided(raw, inString, harnessKeepsLess)
    ensures AddUp(raw, inString, harnessKeepsLess)
    decreases |raw|
  {
    if raw == [] {
      NothingAddsUp(inString, harnessKeepsLess);
    } else if LineEnd(raw) == |raw| {
      assert raw[..|raw|] == raw;
      LastLineAddsUp(raw, inString, harnessKeepsLess);
    } else {
      var line, rest := FirstLineOf(raw);
      LineAddsUp(line, rest, inString, harnessKeepsLess);
      CutsAddUp(rest, LeavesOpen(line, inString), harnessKeepsLess);
    }
  }

  lemma LastLineWeighs(line: string, inString: bool)
    requires '\n' !in line && LiteralsLack(line, ';', inString)
    ensures Weight(LexerPieces(line, inString)) == Ink(Strip(line, inString))
    ensures Weight(HarnessPieces(line)) == Ink(Strip(line, false))
  {
    LexerLastLine(line, inString);
    HarnessLastLine(line);
    WeightIsInk(Strip(line, inString));
    WeightIsInk(Strip(line, false));
  }

  lemma LineWeighs(line: string, rest: string, inString: bool)
    requires '\n' !in line && LiteralsLack(line + ("\n" + rest), ';', inString)
    ensures var open, raw := LeavesOpen(line, inString), line + ("\n" + rest);
            && LiteralsLack(rest, ';', open)
            && Weight(LexerPieces(raw, inString)) == Ink(Strip(line, inString)) + Weight(LexerPieces(rest, open))
            && Weight(HarnessPieces(raw)) == Ink(Strip(line, false)) + Weight(HarnessPieces(rest))
  {
    LexerLine(line, rest, inString);
    HarnessLine(line, rest);
    WeightGlue(Erased(Strip(line, inString)), LexerPieces(rest, LeavesOpen(line, inString)));
    WeightGlue(Erased(Strip(line, false)), HarnessPieces(rest));
    WeightIsInk(Strip(line, inString));
    WeightIsInk(Strip(line, false));
  }

  /**
   If the harness never keeps more of a line than the migrator, or never less, the splitters agree
   exactly when no literal contains `;` and no line is cut differently from inside a literal.
   */
  lemma SplittersAgreeExactlyWhen(raw: string, harnessKeepsLess: bool)
    requires OneSided(raw, false, harnessKeepsLess)
    ensures EraseEach(Split(raw)) == EraseEach(HarnessSplit(raw)) <==>
            LiteralsLack(raw, ';', false) && CutsAgree(raw, false)
  {
    if !LiteralsLack(raw, ';', false) {
      SemicolonsSeparate(raw);
    } else if CutsAgree(raw, false) {
      SplittersAgreeOn(raw);
    } else {
      CutsAddUp(raw, false, harnessKeepsLess);
      Reported(raw);
      WeightNonEmpty(LexerPieces(raw, false));
      WeightNonEmpty(HarnessPieces(raw));
    }
  }

  // ---------- Differences on both sides ----------

  lemma {:induction false} SkipLineLacks(s: string, c: char)
    requires c !in s
    ensures c !in SkipLine(s)
  {
    if s != [] {
      SkipLineLacks(s[1..], c);
    }
  }

  lemma {:induction false} LackingEverywhere(s: string, c: char, inString: bool)
    requires c !in s
    ensures LiteralsLack(s, c, inString)
    decreases |s|
  {
    if s != [] {
      LackingEverywhere(s[1..], c, true);
      LackingEverywhere(s[1..], c, false);
      if |s| > 1 {
        SkipLineLacks(s[2..], c);
        LackingEverywhere(SkipLine(s[2..]), c, false);
        LackingEverywhere(s[2..], c, true);
      }
    }
  }

  lemma {:induction false} OnePiece(s: string)
    requires ';' !in s
    ensures PlainSplit(s) == [s] && Erased(s) == [Erase(s)]
  {
    if s != [] {
      OnePiece(s[1..]);
      assert s == [s[0]] + s[1..];
    }
  }

  /** A word of a line: no quote, `;` or line break. */
  predicate Word(s: string) { '\'' !in s && ';' !in s && '\n' !in s }

  predicate BeginsComment(s: string) { |s| > 1 && s[0] == '-' && s[1] == '-' }

  predicate NoComment(s: string) { s == [] || (!BeginsComment(s) && NoComment(s[1..])) }

  lemma {:induction false} StripWord(word: string, rest: string, inString: bool)
    requires Word(word) && (inString || NoComment(word))
    ensures Strip(word + ("'" + rest), inString) == word + ("'" + Strip(rest, !inString))
    ensures LeavesOpen(word + ("'" + rest), inString) == LeavesOpen(rest, !inString)
    decreases |word|
  {
    var s := word + ("'" + rest);
    if word == [] {
      assert s == "'" + rest && s[1..] == rest;
    } else {
      assert s[1..] == word[1..] + ("'" + rest);
      StripWord(word[1..], rest, inString);
      assert s[1] == '-' ==> |word| > 1 && word[1] == s[1];
    }
  }

  /** Two words, each followed by a quote. */
  function Quoted(a: string, b: string): string { a + ("'" + (b + ("'" + ""))) }

  lemma StripQuoted(a: string, b: string, inString: bool)
    requires Word(a) && Word(b) && (inString || NoComment(a)) && (!inString || NoComment(b))
    ensures Strip(Quoted(a, b), inString) == Quoted(a, b) && LeavesOpen(Quoted(a, b), inString) == inString
  {
    StripWord(a, b + ("'" + ""), inString);
    StripWord(b, "", !inString);
  }

  lemma EraseQuoted(a: string, rest: string)
    ensures Erase(a + ("'" + rest)) == Erase(a) + ("'" + Erase(rest))
  {
    EraseConcat(a, "'" + rest);
    assert ("'" + rest)[1..] == rest;
  }

  /** A file whose second and third line begin inside a literal. */
  function Crossed(a: string, b: string): string
  {
    "'" + ("\n" + (Quoted(a, b) + ("\n" + (b + ("'" + Quoted(a, b))))))
  }

  /** How its lines are read from inside a literal and from outside. */
  lemma CrossedLines(a: string, b: string)
    requires Word(a) && Word(b) && BeginsComment(a) && NoComment(b)
    ensures var second, third := Quoted(a, b), b + ("'" + Quoted(a, b));
            && Strip(second, true) == second && LeavesOpen(second, true) && Strip(second, false) == ""
            && Strip(third, true) == b + ("'" + "") && Strip(third, false) == third
  {
    StripQuoted(a, b, true);
    StripWord(b, Quoted(a, b), true);
    StripWord(b, Quoted(a, b), false);
  }

  lemma CrossedText(a: string, b: string, c: char)
    requires c !in a && c !in b && c != '\''
    ensures c !in Quoted(a, b) && c !in b + ("'" + Quoted(a, b))
    ensures c != '\n' ==> c !in Crossed(a, b)
  {
  }

  lemma QuoteLine()
    ensures Strip("'", false) == "'" && LeavesOpen("'", false) && Erased("'") == ["'"]
  {
    assert "'"[1..] == "";
    OnePiece("'");
  }

  lemma CrossedForLexer(a: string, b: string)
    requires Word(a) && Word(b) && BeginsComment(a) && NoComment(b)
    ensures LiteralsLack(Crossed(a, b), ';', false)
    ensures LexerPieces(Crossed(a, b), false) == ["'" + (Erase(Quoted(a, b)) + Erase(b + ("'" + "")))]
  {
    var second, third := Quoted(a, b), b + ("'" + Quoted(a, b));
    CrossedText(a, b, ';');
    CrossedText(a, b, '\n');
    LackingEverywhere(Crossed(a, b), ';', false);
    QuoteLine();
    CrossedLines(a, b);
    LexerLine("'", second + ("\n" + third), false);
    LexerLine(second, third, true);
    LexerLastLine(third, true);
    OnePiece(second);
    OnePiece(b + ("'" + ""));
  }

  lemma CrossedForHarness(a: string, b: string)
    requires Word(a) && Word(b) && BeginsComment(a) && NoComment(b)
    ensures HarnessPieces(Crossed(a, b)) == ["'" + Erase(b + ("'" + Quoted(a, b)))]
  {
    var second, third := Quoted(a, b), b + ("'" + Quoted(a, b));
    CrossedText(a, b, ';');
    CrossedText(a, b, '\n');
    QuoteLine();
    CrossedLines(a, b);
    HarnessLine("'", second + ("\n" + third));
    HarnessLine(second, third);
    HarnessLastLine(third);
    OnePiece("");
    OnePiece(third);
    GlueEmpty(Erased(third));
  }

  lemma CrossedErases(a: string, b: string)
    requires Erase(a) == Erase(b)
    ensures Erase(Quoted(a, b)) + Erase(b + ("'" + "")) == Erase(b + ("'" + Quoted(a, b)))
  {
    EraseQuoted(b, "");
    EraseQuoted(a, b + ("'" + ""));
    EraseQuoted(b, Quoted(a, b));
    ThreeQuoted(Erase(a));
  }

  lemma ThreeQuoted(e: string)
    ensures (e + ("'" + (e + ("'" + "")))) + (e + ("'" + "")) == e + ("'" + (e + ("'" + (e + ("'" + "")))))
  {
  }

  lemma CrossedCuts(a: string, b: string)
    requires Word(a) && Word(b) && BeginsComment(a) && NoComment(b)
    ensures !CutsAgree(Crossed(a, b), false)
  {
    var second := Quoted(a, b);
    var rest := second + ("\n" + (b + ("'" + second)));
    QuoteLine();
    CrossedLines(a, b);
    CrossedText(a, b, '\n');
    CutsOfLine("'", rest, false);
    CutsOfLine(second, b + ("'" + second), true);
  }

  /**
   Differences on both sides may cancel: in each file of this family the harness loses the mark that
   opens the second line and keeps the one in the third that the migrator drops, and yet both report
   the same statements. So no condition on single lines is exact for all files.
   */
  lemma OppositeCutsMayCancel(a: string, b: string)
    requires Word(a) && Word(b) && BeginsComment(a) && NoComment(b) && Erase(a) == Erase(b)
    ensures LiteralsLack(Crossed(a, b), ';', false) && !CutsAgree(Crossed(a, b), false)
    ensures EraseEach(Split(Crossed(a, b))) == EraseEach(HarnessSplit(Crossed(a, b)))
  {
    CrossedForLexer(a, b);
    CrossedForHarness(a, b);
    CrossedErases(a, b);
    Reported(Crossed(a, b));
    CrossedCuts(a, b);
  }

  /** `--` and `- -` are such words. */
  lemma CancellingWords()
    ensures Word("--") && Word("- -") && BeginsComment("--") && NoComment("- -") && Erase("--") == Erase("- -")
  {
    assert "--"[1..] == "-" && "- -"[1..] == " -" && " -"[1..] == "-" && "-"[1..] == "";
    assert Erase(" -") == "-";
  }
}
