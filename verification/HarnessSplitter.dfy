/**
 The test harness's own statement splitter, which works line by line: cut each line at the first
 `--` outside a quote-toggled literal, drop blank lines, join, and split on every `;`.
 */
module HarnessSplitter {
  import opened SqlText

  // ---------- The harness ----------

  /** A line cut at its first comment, a quote toggling whether a literal is open. */
  function Strip(line: string, inString: bool): string
    decreases |line|
  {
    if line == [] then ""
    else if line[0] == '\'' then "'" + Strip(line[1..], !inString)
    else if line[0] == '-' && !inString && |line| > 1 && line[1] == '-' then ""
    else [line[0]] + Strip(line[1..], inString)
  }

  /** What one more character contributes. */
  lemma StripAt(line: string, i: nat, inString: bool)
    requires i < |line|
    ensures line[i] == '-' && !inString && i + 1 < |line| && line[i + 1] == '-' ==> Strip(line[i..], inString) == ""
    ensures !(line[i] == '-' && !inString && i + 1 < |line| && line[i + 1] == '-') ==>
              line[..i] + Strip(line[i..], inString)
              == line[..i + 1] + Strip(line[i + 1..], if line[i] == '\'' then !inString else inString)
  {
    var s := line[i..];
    assert s[0] == line[i] && s[1..] == line[i + 1..] && line[..i + 1] == line[..i] + [line[i]];
  }

  method StripInlineComment(line: string) returns (code: string)
    ensures code == Strip(line, false)
  {
    var inString, i := false, 0;
    ghost var all := Strip(line, false);
    assert line[..0] == "" && line[0..] == line;
    while i < |line|
      invariant 0 <= i <= |line|
      invariant line[..i] + Strip(line[i..], inString) == all
    {
      StripAt(line, i, inString);
      if line[i] == '\'' {
        inString := !inString;
      } else if line[i] == '-' && !inString && i + 1 < |line| && line[i + 1] == '-' {
        return line[..i];
      }
      i := i + 1;
    }
    assert line[..i] == line && line[i..] == "";
    return line;
  }

  function LineEnd(s: string): (n: nat)
    ensures n <= |s| && '\n' !in s[..n] && (n < |s| ==> s[n] == '\n')
  {
    if s == [] || s[0] == '\n' then 0
    else
      var n := LineEnd(s[1..]);
      assert s[..n + 1] == [s[0]] + s[1..][..n];
      n + 1
  }

  function DropCr(line: string): string
  {
    if line != [] && line[|line| - 1] == '\r' then line[..|line| - 1] else line
  }

  /** The lines of a file, as `str::lines` gives them. */
  function Lines(s: string): seq<string>
    decreases |s|
  {
    if s == [] then []
    else
      var n := LineEnd(s);
      if n == |s| then [s] else [DropCr(s[..n])] + Lines(s[n + 1..])
  }

  /** The stripped lines that are not blank. */
  function CodeLines(lines: seq<string>): seq<string>
  {
    if lines == [] then []
    else
      var code := Strip(lines[0], false);
      (if Trim(code) == [] then [] else [code]) + CodeLines(lines[1..])
  }

  function JoinLines(lines: seq<string>): string
  {
    if lines == [] then ""
    else if |lines| == 1 then lines[0]
    else lines[0] + "\n" + JoinLines(lines[1..])
  }

  /** Splitting on every `;`. */
  function PlainSplit(s: string): (pieces: seq<string>)
    ensures pieces != []
  {
    if s == [] then [""]
    else if s[0] == ';' then [""] + PlainSplit(s[1..])
    else Push([s[0]], PlainSplit(s[1..]))
  }

  function HarnessSplit(raw: string): seq<string>
  {
    Statements(PlainSplit(JoinLines(CodeLines(Lines(raw)))))
  }
}
