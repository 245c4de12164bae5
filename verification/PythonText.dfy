/** The Python string operations that the modelled code relies on: white space, stripping,
    splitting into lines, substring tests and joining. */
module PythonText {
  /** `str.isspace` */
  predicate IsSpace(c: char) {
    || '\t' <= c <= '\r' || '\U{1c}' <= c <= ' ' || c == '\U{85}' || c == '\U{a0}' || c == '\U{1680}'
    || '\U{2000}' <= c <= '\U{200a}' || c == '\U{2028}' || c == '\U{2029}' || c == '\U{202f}' || c == '\U{205f}'
      || c == '\U{3000}'
  }

  /** The code points of white space. */
  const SPACES := {9, 10, 11, 12, 13, 28, 29, 30, 31, 32, 0x85, 0xa0, 0x1680, 0x2000, 0x2001, 0x2002, 0x2003, 0x2004,
    0x2005, 0x2006, 0x2007, 0x2008, 0x2009, 0x200a, 0x2028, 0x2029, 0x202f, 0x205f, 0x3000}

  lemma SpacesAre(c: char)
    ensures IsSpace(c) <==> c as int in SPACES
  {
  }

  /** Every line break is white space. */
  lemma LineBreaksAreSpaces(c: char)
    ensures IsLineBreak(c) <==> c as int in {10, 11, 12, 13, 28, 29, 30, 0x85, 0x2028, 0x2029}
    ensures IsLineBreak(c) ==> IsSpace(c)
  {
  }

  /** Where `str.splitlines` ends a line. */
  predicate IsLineBreak(c: char) {
    '\n' <= c <= '\r' || '\U{1c}' <= c <= '\U{1e}' || c == '\U{85}' || c == '\U{2028}' || c == '\U{2029}'
  }

  /** `not text.strip()` */
  predicate IsBlank(text: string) {
    forall c :: c in text ==> IsSpace(c)
  }

  predicate Contains(text: string, part: string)
    decreases |text|
  {
    |part| <= |text| && (text[..|part|] == part || (text != "" && Contains(text[1..], part)))
  }

  ghost predicate OccursAt(text: string, part: string, i: int) {
    0 <= i <= |text| - |part| && text[i..i + |part|] == part
  }

  lemma {:induction false} ContainsMeans(text: string, part: string)
    ensures Contains(text, part) <==> exists i :: OccursAt(text, part, i)
  {
    if |part| <= |text| {
      assert text[0..|part|] == text[..|part|];
      assert text[..|part|] == part <==> OccursAt(text, part, 0);
      if text != "" {
        ContainsMeans(text[1..], part);
        forall i: int ensures OccursAt(text[1..], part, i) <==> 0 <= i && OccursAt(text, part, i + 1) {
          if 0 <= i <= |text| - 1 - |part| {
            assert text[1..][i..i + |part|] == text[i + 1..i + 1 + |part|];
          }
        }
        if exists i :: OccursAt(text, part, i) {
          var i :| OccursAt(text, part, i);
          assert i == 0 || OccursAt(text[1..], part, i - 1);
        }
      }
    }
  }

  function Join(separator: string, parts: seq<string>): string {
    if parts == [] then ""
    else if |parts| == 1 then parts[0]
    else parts[0] + separator + Join(separator, parts[1..])
  }

  function StripLeft(s: string): string {
    if s != "" && IsSpace(s[0]) then StripLeft(s[1..]) else s
  }

  function StripRight(s: string): string {
    if s != "" && IsSpace(s[|s| - 1]) then StripRight(s[..|s| - 1]) else s
  }

  function Strip(s: string): string {
    StripRight(StripLeft(s))
  }

  /** How many characters come before the first line break. */
  function BeforeBreak(s: string): (n: nat)
    ensures n <= |s|
    ensures forall i :: 0 <= i < n ==> !IsLineBreak(s[i])
    ensures n < |s| ==> IsLineBreak(s[n])
  {
    if s == "" || IsLineBreak(s[0]) then 0 else 1 + BeforeBreak(s[1..])
  }

  /** `str.splitlines` */
  function SplitLines(s: string): seq<string>
    decreases |s|
  {
    if s == "" then []
    else
      var n := BeforeBreak(s);
      if n == |s| then [s]
      else
        var skip := if s[n] == '\r' && n + 1 < |s| && s[n + 1] == '\n' then 2 else 1;
        [s[..n]] + SplitLines(s[n + skip..])
  }

  ghost predicate OneLine(s: string) {
    forall i :: 0 <= i < |s| ==> !IsLineBreak(s[i])
  }

  lemma {:induction false} LineThenBreak(line: string, rest: string)
    requires OneLine(line)
    ensures BeforeBreak(line + "\n" + rest) == |line|
    ensures BeforeBreak(line) == |line|
  {
    if line == "" {
      assert line + "\n" + rest == "\n" + rest;
    } else {
      assert (line + "\n" + rest)[1..] == line[1..] + "\n" + rest;
      LineThenBreak(line[1..], rest);
    }
  }

  lemma SplitFirst(line: string, rest: string)
    requires line != "" && OneLine(line)
    ensures SplitLines(line + "\n" + rest) == [line] + SplitLines(rest)
    ensures SplitLines(line) == [line]
  {
    hide OneLine, IsLineBreak, BeforeBreak;
    var whole := line + "\n" + rest;
    LineThenBreak(line, rest);
    assert whole[..|line|] == line;
    assert whole[|line|] == '\n';
    assert whole[|line| + 1..] == rest;
  }

  /** Lines joined by newlines split into the same lines. */
  lemma {:induction false} SplitJoined(lines: seq<string>)
    requires forall i :: 0 <= i < |lines| ==> lines[i] != "" && OneLine(lines[i])
    ensures SplitLines(Join("\n", lines)) == lines
  {
    hide OneLine, SplitLines;
    if lines == [] {
      NoLines();
    } else {
      SplitFirst(lines[0], Join("\n", lines[1..]));
      if |lines| > 1 {
        SplitJoined(lines[1..]);
        assert lines == [lines[0]] + lines[1..];
      }
    }
  }

  lemma NoLines()
    ensures SplitLines("") == []
  {
  }
}
