/**
 The migrator's statement splitter: one pass over the characters with one character of lookahead,
 splitting on `;`, copying string literals verbatim (with `''` as an escaped quote) and dropping
 `--` comments up to, but not including, the end of the line.
 */
module Splitter {
  import opened SqlText

  /** What is left after skipping to the end of the line. */
  function SkipLine(s: string): (r: string)
    ensures |r| <= |s| && (r == [] || r[0] == '\n')
  {
    if s == [] || s[0] == '\n' then s else SkipLine(s[1..])
  }

  /** The raw pieces between the `;`s that split, comments removed. */
  function Scan(s: string, inString: bool): (pieces: seq<string>)
    ensures pieces != []
    decreases |s|
  {
    if s == [] then [""]
    else if inString then
      if s[0] != '\'' then Push([s[0]], Scan(s[1..], true))
      else if |s| > 1 && s[1] == '\'' then Push("''", Scan(s[2..], true))
      else Push("'", Scan(s[1..], false))
    else if s[0] == '\'' then Push("'", Scan(s[1..], true))
    else if s[0] == '-' && |s| > 1 && s[1] == '-' then Scan(SkipLine(s[2..]), false)
    else if s[0] == ';' then [""] + Scan(s[1..], false)
    else Push([s[0]], Scan(s[1..], false))
  }

  function Split(s: string): seq<string> { Statements(Scan(s, false)) }

  // ---------- What the statements contain ----------

  /** A text without its comments and splitting `;`, every quote opening or closing a literal. */
  function Code(s: string, inString: bool): string
    decreases |s|
  {
    if s == [] then ""
    else if s[0] == '\'' then "'" + Code(s[1..], !inString)
    else if !inString && s[0] == ';' then Code(s[1..], false)
    else if !inString && s[0] == '-' && |s| > 1 && s[1] == '-' then Code(SkipLine(s[2..]), false)
    else [s[0]] + Code(s[1..], inString)
  }

  lemma FlatPush(c: string, pieces: seq<string>)
    requires pieces != []
    ensures Flat(Push(c, pieces)) == c + Flat(pieces)
  {
    assert Push(c, pieces)[1..] == pieces[1..];
  }

  /** Looking ahead for an escaped quote sees the same literals as toggling at every quote. */
  lemma {:induction false} ScanKeepsCode(s: string, inString: bool)
    ensures Flat(Scan(s, inString)) == Code(s, inString)
    decreases |s|
  {
    if s == [] {
      assert Flat([""]) == "";
    } else if inString && s[0] == '\'' && |s| > 1 && s[1] == '\'' {
      ScanKeepsCode(s[2..], true);
      FlatPush("''", Scan(s[2..], true));
      assert s[1..][1..] == s[2..];
      assert Code(s, true) == "'" + ("'" + Code(s[2..], true));
    } else if !inString && s[0] == '-' && |s| > 1 && s[1] == '-' {
      ScanKeepsCode(SkipLine(s[2..]), false);
    } else if !inString && s[0] == ';' {
      ScanKeepsCode(s[1..], false);
      assert ([""] + Scan(s[1..], false))[1..] == Scan(s[1..], false);
    } else {
      var next := if s[0] == '\'' then !inString else inString;
      ScanKeepsCode(s[1..], next);
      FlatPush([s[0]], Scan(s[1..], next));
    }
  }

  /** The printable characters of the statements are those of the file's code, in order. */
  lemma SplitKeepsCode(s: string)
    ensures Visible(Flat(Split(s))) == Visible(Code(s, false))
  {
    ScanKeepsCode(s, false);
    VisibleStatements(Scan(s, false));
  }

  // ---------- The splitter ----------

  lemma PushEmpty(pieces: seq<string>)
    requires pieces != []
    ensures Push("", pieces) == pieces
  {
    assert "" + pieces[0] == pieces[0];
  }

  lemma TailStatement(current: string)
    ensures Statements([current]) == if Trim(current) == [] then [] else [Trim(current)]
  {
    assert [current][1..] == [];
  }

  lemma StatementsCons(piece: string, rest: seq<string>)
    ensures Statements([piece] + rest) == Statements([piece]) + Statements(rest)
  {
    assert ([piece] + rest)[1..] == rest;
    TailStatement(piece);
  }

  /** What remains to be reported when `s` is unread and `current` is pending. */
  ghost function Pending(current: string, s: string, inString: bool): seq<string>
  {
    Statements(Push(current, Scan(s, inString)))
  }

  lemma PendingCopies(current: string, s: string, inString: bool, n: nat, next: bool)
    requires n <= |s| && Scan(s, inString) == Push(s[..n], Scan(s[n..], next))
    ensures Pending(current, s, inString) == Pending(current + s[..n], s[n..], next)
  {
    PushPush(current, s[..n], Scan(s[n..], next));
  }

  /** One step inside a literal: an escaped quote, the closing quote or any other character. */
  lemma PendingInString(current: string, s: string)
    requires s != []
    ensures s[0] == '\'' && |s| > 1 && s[1] == '\'' ==>
              Pending(current, s, true) == Pending(current + s[..2], s[2..], true)
    ensures !(s[0] == '\'' && |s| > 1 && s[1] == '\'') ==>
              Pending(current, s, true) == Pending(current + s[..1], s[1..], s[0] != '\'')
  {
    if s[0] == '\'' && |s| > 1 && s[1] == '\'' {
      assert s[..2] == "''";
      PendingCopies(current, s, true, 2, true);
    } else {
      assert s[..1] == [s[0]];
      PendingCopies(current, s, true, 1, s[0] != '\'');
    }
  }

  /** One step outside literals: a comment, a split or any other character. */
  lemma PendingOutside(current: string, s: string)
    requires s != []
    ensures s[0] == '-' && |s| > 1 && s[1] == '-' ==>
              Pending(current, s, false) == Pending(current, SkipLine(s[2..]), false)
    ensures s[0] == ';' ==>
              Pending(current, s, false) == Statements([current]) + Pending("", s[1..], false)
    ensures s[0] != ';' && !(s[0] == '-' && |s| > 1 && s[1] == '-') ==>
              Pending(current, s, false) == Pending(current + s[..1], s[1..], s[0] == '\'')
  {
    if s[0] == ';' {
      var rest := Scan(s[1..], false);
      assert current + "" == current;
      assert Push(current, [""] + rest) == [current] + rest;
      StatementsCons(current, rest);
      PushEmpty(rest);
    } else if !(s[0] == '-' && |s| > 1 && s[1] == '-') {
      assert s[..1] == [s[0]];
      PendingCopies(current, s, false, 1, s[0] == '\'');
    }
  }

  lemma PendingAtEnd(current: string, inString: bool)
    ensures Pending(current, [], inString) == Statements([current])
  {
    assert current + "" == current;
  }

  /** Skips a line comment, leaving the end of the line to be read next. */
  method SkipComment(content: string, start: nat) returns (i: nat)
    requires start <= |content|
    ensures start <= i <= |content| && content[i..] == SkipLine(content[start..])
  {
    i := start;
    while i < |content| && content[i] != '\n'
      invariant start <= i <= |content|
      invariant SkipLine(content[i..]) == SkipLine(content[start..])
    {
      i := i + 1;
      assert content[i - 1..][1..] == content[i..];
    }
  }

  method Flush(current: string, statements: seq<string>) returns (out: seq<string>)
    ensures out == statements + Statements([current])
  {
    TailStatement(current);
    var stmt := Trim(current);
    out := if stmt != [] then statements + [stmt] else statements;
  }

  /** Having read `content` up to `i`, the splitter has reported `statements` and holds `current`. */
  ghost predicate Progress(content: string, i: nat, statements: seq<string>, current: string, inString: bool)
  {
    i <= |content| && statements + Pending(current, content[i..], inString) == Split(content)
  }

  lemma ProgressStarts(content: string)
    ensures Progress(content, 0, [], "", false)
  {
    assert content[0..] == content;
    PushEmpty(Scan(content, false));
  }

  lemma ProgressInString(content: string, i: nat, statements: seq<string>, current: string)
    requires i < |content| && Progress(content, i, statements, current, true)
    ensures var c := content[i];
            if c == '\'' && i + 1 < |content| && content[i + 1] == '\''
            then Progress(content, i + 2, statements, current + [c, content[i + 1]], true)
            else Progress(content, i + 1, statements, current + [c], c != '\'')
  {
    var s := content[i..];
    assert s[1..] == content[i + 1..] && s[..1] == [content[i]];
    if i + 1 < |content| {
      assert s[2..] == content[i + 2..] && s[..2] == [content[i], content[i + 1]];
    }
    PendingInString(current, s);
  }

  lemma ProgressOutside(content: string, i: nat, statements: seq<string>, current: string)
    requires i < |content| && Progress(content, i, statements, current, false)
    requires content[i] != ';' && !(content[i] == '-' && i + 1 < |content| && content[i + 1] == '-')
    ensures Progress(content, i + 1, statements, current + [content[i]], content[i] == '\'')
  {
    var s := content[i..];
    assert s[1..] == content[i + 1..] && s[..1] == [content[i]];
    PendingOutside(current, s);
  }

  lemma ProgressComment(content: string, i: nat, statements: seq<string>, current: string, next: nat)
    requires i + 1 < |content| && Progress(content, i, statements, current, false)
    requires content[i] == '-' && content[i + 1] == '-'
    requires next <= |content| && content[next..] == SkipLine(content[i + 2..])
    ensures Progress(content, next, statements, current, false)
  {
    assert content[i..][2..] == content[i + 2..];
    PendingOutside(current, content[i..]);
  }

  lemma ProgressSplit(content: string, i: nat, statements: seq<string>, current: string)
    requires i < |content| && Progress(content, i, statements, current, false) && content[i] == ';'
    ensures Progress(content, i + 1, statements + Statements([current]), "", false)
  {
    assert content[i..][1..] == content[i + 1..];
    PendingOutside(current, content[i..]);
    assert statements + (Statements([current]) + Pending("", content[i + 1..], false))
        == (statements + Statements([current])) + Pending("", content[i + 1..], false);
  }

  lemma ProgressEnds(content: string, statements: seq<string>, current: string, inString: bool)
    requires Progress(content, |content|, statements, current, inString)
    ensures statements + Statements([current]) == Split(content)
  {
    assert content[|content|..] == [];
    PendingAtEnd(current, inString);
  }

  /** One character inside a literal, or two if they are an escaped quote. */
  method ReadInString(content: string, i: nat, ghost statements: seq<string>, current: string)
    returns (next: nat, text: string, inString: bool)
    requires i < |content| && Progress(content, i, statements, current, true)
    ensures i < next <= |content| && Progress(content, next, statements, text, inString)
  {
    ProgressInString(content, i, statements, current);
    var c := content[i];
    if c == '\'' && i + 1 < |content| && content[i + 1] == '\'' {
      return i + 2, current + [c, content[i + 1]], true;
    }
    return i + 1, current + [c], c != '\'';
  }

  /** One character outside literals, or a comment. */
  method ReadOutside(content: string, i: nat, statements: seq<string>, current: string)
    returns (next: nat, reported: seq<string>, text: string, inString: bool)
    requires i < |content| && Progress(content, i, statements, current, false)
    ensures i < next <= |content| && Progress(content, next, reported, text, inString)
  {
    var c := content[i];
    reported, text, inString := statements, current, false;
    if c == '-' && i + 1 < |content| && content[i + 1] == '-' {
      next := SkipComment(content, i + 2);
      ProgressComment(content, i, statements, current, next);
    } else if c == ';' {
      ProgressSplit(content, i, statements, current);
      reported := Flush(current, statements);
      next, text := i + 1, "";
    } else {
      ProgressOutside(content, i, statements, current);
      next, text, inString := i + 1, current + [c], c == '\'';
    }
  }

  /** The splitter itself; `i` is the position of the character iterator. */
  method SplitStatements(content: string) returns (statements: seq<string>)
    ensures statements == Split(content)
    ensures Visible(Flat(statements)) == Visible(Code(content, false))
  {
    statements := [];
    var current, inString, i := "", false, 0;
    ProgressStarts(content);
    while i < |content|
      invariant i <= |content| && Progress(content, i, statements, current, inString)
    {
      if inString {
        i, current, inString := ReadInString(content, i, statements, current);
      } else {
        i, statements, current, inString := ReadOutside(content, i, statements, current);
      }
    }
    ProgressEnds(content, statements, current, inString);
    statements := Flush(current, statements);
    SplitKeepsCode(content);
  }
}
