/** Fitting a download name into a number of bytes, and numbering it until it is free
    (apps/desktop/api_client.py). File names hold no path separator. */
module DownloadNames {
  import opened Prelude
  import opened Decimals
  import opened Utf8

  const MAX_DOWNLOAD_FILENAME_BYTES := 255
  const DOWNLOAD_FILENAME_FALLBACK := "veridoc-result.json"
  const COMPOUND_SUFFIX := ".veridoc-result.json"

  // ---- Taking a name apart

  ghost function LowerAscii(s: string): string {
    seq(|s|, i requires 0 <= i < |s| => if 'A' <= s[i] <= 'Z' then (s[i] as int + 32) as char else s[i])
  }

  /** Where the last dot is, |s| if there is none. */
  ghost function LastDot(s: string): (i: nat)
    ensures i <= |s| && (i < |s| ==> s[i] == '.')
    ensures forall k :: i < k < |s| ==> s[k] != '.'
  {
    if s == "" then 0
    else if s[|s| - 1] == '.' then |s| - 1
    else
      var i := LastDot(s[..|s| - 1]);
      if i == |s| - 1 then |s| else i
  }

  /** Where `_split_collision_suffix` cuts. */
  ghost function SuffixStart(filename: string): (n: nat)
    ensures n <= |filename|
  {
    var compound := |filename| - |COMPOUND_SUFFIX|;
    var dot := LastDot(filename);
    if compound >= 0 && LowerAscii(filename[compound..]) == COMPOUND_SUFFIX then compound
    else if 0 < dot < |filename| - 1 then dot
    else |filename|
  }

  ghost function Stem(filename: string): string {
    filename[..SuffixStart(filename)]
  }

  ghost function Suffix(filename: string): string {
    filename[SuffixStart(filename)..]
  }

  // ---- Fitting

  predicate IsTrimmed(c: char) {
    c == ' ' || c == '.' || c == '-'
  }

  ghost function TrimLeft(s: string): string {
    if s != "" && IsTrimmed(s[0]) then TrimLeft(s[1..]) else s
  }

  ghost function TrimRight(s: string): string {
    if s != "" && IsTrimmed(s[|s| - 1]) then TrimRight(s[..|s| - 1]) else s
  }

  /** `s.strip(" .-")` */
  ghost function Trim(s: string): string {
    TrimRight(TrimLeft(s))
  }

  /** `_fit_download_filename` */
  ghost function Fit(filename: string, insertion: string, max: int): string {
    var stem, suffix := Stem(filename), Suffix(filename);
    var reserved := insertion + suffix;
    var available := max - |Encode(reserved)|;
    var fittedStem := Trim(Truncate(stem, available));
    if available > 0 && fittedStem != "" then fittedStem + reserved
    else
      var fitted := Trim(Truncate(stem + insertion + suffix, max));
      if fitted != "" then fitted else DOWNLOAD_FILENAME_FALLBACK
  }

  // ---- The same as it runs

  /** `_split_collision_suffix` */
  method SplitCollisionSuffix(filename: string) returns (stem: string, suffix: string)
    ensures stem == Stem(filename) && suffix == Suffix(filename)
  {
    var compound := IsCompound(filename);
    if compound {
      var n := |filename| - 20;
      return filename[..n], filename[n..];
    }
    var dot := |filename|;
    while dot > 0 && filename[dot - 1] != '.'
      invariant 0 <= dot <= |filename| && forall k :: dot <= k < |filename| ==> filename[k] != '.'
    {
      dot := dot - 1;
    }
    LastDotIs(filename, dot);
    if dot <= 1 || dot == |filename| {
      return filename, "";
    }
    stem, suffix := filename[..dot - 1], filename[dot - 1..];
  }

  lemma {:induction false} LastDotIs(s: string, dot: nat)
    requires dot <= |s| && (dot > 0 ==> s[dot - 1] == '.') && forall k :: dot <= k < |s| ==> s[k] != '.'
    ensures LastDot(s) == if dot > 0 then dot - 1 else |s|
  {
    if s != "" && dot < |s| {
      LastDotIs(s[..|s| - 1], dot);
    }
  }

  /** `filename.lower().endswith(...)`, for the compound suffix */
  method IsCompound(filename: string) returns (compound: bool)
    ensures compound == (|filename| >= 20 && LowerAscii(filename[|filename| - 20..]) == COMPOUND_SUFFIX)
  {
    var suffix := ".veridoc-result.json";
    if |filename| < 20 {
      return false;
    }
    ghost var end := filename[|filename| - 20..];
    for i := 0 to 20
      invariant forall k :: 0 <= k < i ==> LowerAscii(end)[k] == COMPOUND_SUFFIX[k]
    {
      var c := filename[|filename| - 20 + i];
      assert end[i] == c;
      if c != suffix[i] && !('A' <= c && c <= 'Z' && c as int - 'A' as int == suffix[i] as int - 'a' as int) {
        assert LowerAscii(end)[i] != COMPOUND_SUFFIX[i];
        return false;
      }
    }
    compound := true;
  }

  /** `s.strip(" .-")` */
  method StripEnds(s: string) returns (stripped: string)
    ensures stripped == Trim(s)
  {
    stripped := StripStart(s);
    stripped := StripEnd(stripped);
  }

  method StripStart(s: string) returns (stripped: string)
    ensures stripped == TrimLeft(s)
  {
    var from := 0;
    while from < |s| && s[from] in {' ', '.', '-'}
      invariant 0 <= from <= |s| && TrimLeft(s) == TrimLeft(s[from..])
    {
      assert s[from..][1..] == s[from + 1..];
      from := from + 1;
    }
    stripped := s[from..];
  }

  method StripEnd(s: string) returns (stripped: string)
    ensures stripped == TrimRight(s)
  {
    var to := |s|;
    assert s[..|s|] == s;
    while to > 0 && s[to - 1] in {' ', '.', '-'}
      invariant 0 <= to <= |s| && TrimRight(s) == TrimRight(s[..to])
    {
      assert s[..to][..to - 1] == s[..to - 1];
      to := to - 1;
    }
    stripped := s[..to];
  }

  /** `_fit_download_filename` */
  method FitName(filename: string, insertion: string, max: int) returns (fitted: string)
    ensures fitted == Fit(filename, insertion, max)
  {
    hide Encode, Truncate, Trim, SuffixStart;
    var stem, suffix := SplitCollisionSuffix(filename);
    var available := max - |Encode(insertion + suffix)|;
    if available > 0 {
      var fittedStem := StripEnds(Truncate(stem, available));
      if fittedStem != "" {
        return fittedStem + (insertion + suffix);
      }
    }
    fitted := StripEnds(Truncate(stem + insertion + suffix, max));
    if fitted == "" {
      fitted := "veridoc-result.json";
    }
  }

  /** A name within the limit, with a stem that has nothing to strip, is kept as it is. */
  lemma ShortNameIsKept(filename: string, max: int)
    requires |Encode(filename)| <= max && Stem(filename) != "" && Trim(Stem(filename)) == Stem(filename)
    ensures Fit(filename, "", max) == filename
  {
    hide EncodeChar, Encode, Trim, Truncate, SuffixStart;
    var stem, suffix := Stem(filename), Suffix(filename);
    assert filename == stem + suffix;
    EncodeConcat(stem, suffix);
    StemHasBytes(stem);
    assert "" + suffix == suffix;
    FitsWhole(stem, max - |Encode(suffix)|);
  }

  lemma StemHasBytes(s: string)
    requires s != ""
    ensures |Encode(s)| > 0
  {
  }

  lemma FitsWhole(s: string, max: int)
    requires |Encode(s)| <= max
    ensures Truncate(s, max) == s
  {
  }

  lemma {:induction false} TrimLeftBytes(s: string)
    ensures |Encode(TrimLeft(s))| <= |Encode(s)|
  {
    hide EncodeChar;
    if s != "" && IsTrimmed(s[0]) {
      TrimLeftBytes(s[1..]);
    }
  }

  lemma {:induction false} TrimRightBytes(s: string)
    ensures |Encode(TrimRight(s))| <= |Encode(s)|
  {
    hide EncodeChar;
    if s != "" && IsTrimmed(s[|s| - 1]) {
      var init := s[..|s| - 1];
      assert s == init + [s[|s| - 1]];
      EncodeConcat(init, [s[|s| - 1]]);
      TrimRightBytes(init);
    }
  }

  lemma FallbackBytes()
    ensures |Encode(DOWNLOAD_FILENAME_FALLBACK)| == 19
  {
    hide Encode, EncodeChar;
    AsciiBytes(DOWNLOAD_FILENAME_FALLBACK);
  }

  lemma {:induction false} AsciiBytes(s: string)
    requires forall i :: 0 <= i < |s| ==> s[i] < '\U{80}'
    ensures |Encode(s)| == |s|
  {
    hide EncodeChar;
    if s != "" {
      AsciiBytes(s[1..]);
    }
  }

  /** A fitted name is never empty and never exceeds the limit, provided the fallback fits. */
  lemma FitWithinLimit(filename: string, insertion: string, max: int)
    requires max >= 19
    ensures Fit(filename, insertion, max) != "" && |Encode(Fit(filename, insertion, max))| <= max
  {
    hide EncodeChar, Trim, Truncate, Encode, SuffixStart;
    var stem, suffix := Stem(filename), Suffix(filename);
    var reserved := insertion + suffix;
    var available := max - |Encode(reserved)|;
    if available > 0 {
      TrimmedBytes(stem, available);
      EncodeConcat(Trim(Truncate(stem, available)), reserved);
    }
    TrimmedBytes(stem + insertion + suffix, max);
    FallbackBytes();
  }

  lemma TrimmedBytes(s: string, max: int)
    requires max >= 0
    ensures |Encode(Trim(Truncate(s, max)))| <= max
  {
    hide EncodeChar, Truncate;
    TruncateIsLongestPrefix(s, max);
    TrimLeftBytes(Truncate(s, max));
    TrimRightBytes(TrimLeft(Truncate(s, max)));
  }

  // ---- Numbering

  ghost function Insertion(index: nat): string {
    " (" + DecimalText(index) + ")"
  }

  /** The name tried in round `index` of `_available_destination_path`. */
  ghost function Candidate(filename: string, index: nat): string {
    if index == 0 then filename else Fit(filename, Insertion(index), MAX_DOWNLOAD_FILENAME_BYTES)
  }

  /** The name starts with a character that is not trimmed and is within the limit, or its suffix
      leaves the stem four bytes beside the longest number. Every fitted name is safe. */
  ghost predicate IsSafe(filename: string) {
    && filename != "" && !IsTrimmed(filename[0])
    && (|Encode(filename)| <= MAX_DOWNLOAD_FILENAME_BYTES || |Encode(Suffix(filename))| <= MAX_DOWNLOAD_FILENAME_BYTES - 10)
  }

  lemma {:induction false} NumeralLength(n: nat)
    requires n < 1000
    ensures |DecimalText(n)| <= 3
  {
    if n >= 10 {
      var m := n / 10;
      if m >= 10 {
        assert m / 10 < 10;
        assert |DecimalText(m / 10)| == 1;
      }
    }
  }

  lemma InsertionBytes(index: nat)
    requires index < 1000
    ensures |Encode(Insertion(index))| <= 6
  {
    NumeralLength(index);
    AsciiBytes(Insertion(index));
  }

  lemma {:induction false} TrimRightKeepsFirst(s: string)
    requires s != "" && !IsTrimmed(s[0])
    ensures TrimRight(s) != ""
  {
    if IsTrimmed(s[|s| - 1]) {
      TrimRightKeepsFirst(s[..|s| - 1]);
    }
  }

  lemma WidthAtMost4(c: char)
    ensures Width(c) <= 4
  {
  }

  lemma StemAndSuffix(filename: string)
    ensures Stem(filename) + Suffix(filename) == filename
    ensures filename != "" && !IsTrimmed(filename[0]) ==> Stem(filename) != "" && Stem(filename)[0] == filename[0]
    ensures |Encode(filename)| == |Encode(Stem(filename))| + |Encode(Suffix(filename))|
  {
    hide Encode, EncodeChar;
    EncodeConcat(Stem(filename), Suffix(filename));
    if SuffixStart(filename) == 0 && filename != "" {
      assert LowerAscii(filename)[0] == COMPOUND_SUFFIX[0];
    }
  }

  /** A suffix of more than 245 bytes starts with its only dot. */
  lemma LongSuffix(filename: string)
    requires |Encode(Suffix(filename))| > 245
    ensures Suffix(filename)[0] == '.' && forall k :: 0 < k < |Suffix(filename)| ==> Suffix(filename)[k] != '.'
  {
    hide EncodeChar;
    BytesAtMost4(Suffix(filename));
    var n := SuffixStart(filename);
    assert n != |filename| - 20;
    assert n < |filename|;
    assert n == LastDot(filename);
  }

  lemma {:induction false} BytesAtMost4(s: string)
    ensures |s| <= |Encode(s)| <= 4 * |s|
  {
    hide EncodeChar;
    if s != "" {
      BytesAtMost4(s[1..]);
    }
  }

  /** A numbered name is part of the stem, the number, and part of the suffix; one of the parts is
      the whole. */
  lemma Shape(filename: string, index: nat) returns (p: string, r: string)
    requires IsSafe(filename) && 0 < index < 1000
    ensures p <= Stem(filename) && r <= Suffix(filename) && Candidate(filename, index) == p + Insertion(index) + r
    ensures r == Suffix(filename)
      || (p == Stem(filename) && |Encode(Stem(filename))| < 10 && |Encode(Suffix(filename))| > 245)
  {
    hide EncodeChar, Encode, Truncate, SuffixStart, Insertion;
    StemAndSuffix(filename);
    var stem, suffix := Stem(filename), Suffix(filename);
    var available := MAX_DOWNLOAD_FILENAME_BYTES - |Encode(Insertion(index) + suffix)|;
    EncodeConcat(Insertion(index), suffix);
    InsertionBytes(index);
    WidthAtMost4(stem[0]);
    if available >= Width(stem[0]) {
      p := ShapeOfFitted(filename, index);
      r := suffix;
    } else {
      if available > 0 {
        NothingFits(stem, available);
      }
      EncodeConcat(stem, Insertion(index));
      p := stem;
      r := ShapeOfCut(stem, index, suffix);
    }
  }

  lemma NothingFits(stem: string, available: int)
    requires stem != "" && 0 < available < Width(stem[0])
    ensures Trim(Truncate(stem, available)) == ""
  {
    hide EncodeChar, Encode, Truncate;
    TruncateIsLongestPrefix(stem, available);
    var cut := Truncate(stem, available);
    if cut != "" {
      assert cut == [stem[0]] + cut[1..];
      EncodeConcat([stem[0]], cut[1..]);
      OneCharBytes(stem[0]);
    }
  }

  /** The stem is cut to what fits. */
  lemma ShapeOfFitted(filename: string, index: nat) returns (kept: string)
    requires Stem(filename) != "" && !IsTrimmed(Stem(filename)[0])
    requires MAX_DOWNLOAD_FILENAME_BYTES - |Encode(Insertion(index) + Suffix(filename))| >= Width(Stem(filename)[0])
      && index > 0
    ensures kept <= Stem(filename) && Candidate(filename, index) == kept + Insertion(index) + Suffix(filename)
  {
    hide EncodeChar, Truncate, SuffixStart, Insertion, Encode, TrimRight;
    var stem, suffix := Stem(filename), Suffix(filename);
    var reserved := Insertion(index) + suffix;
    var available := MAX_DOWNLOAD_FILENAME_BYTES - |Encode(reserved)|;
    PositiveWidth(stem[0]);
    TruncateIsLongestPrefix(stem, available);
    var cut := Truncate(stem, available);
    assert stem[..1] == [stem[0]];
    OneCharBytes(stem[0]);
    assert cut != "" && cut[0] == stem[0];
    assert TrimLeft(cut) == cut;
    TrimRightKeepsFirst(cut);
    TrimRightIsPrefix(cut);
    kept := Trim(cut);
    assert kept + reserved == kept + Insertion(index) + suffix;
  }

  lemma {:induction false} TrimRightIsPrefix(s: string)
    ensures TrimRight(s) <= s
  {
    if s != "" && IsTrimmed(s[|s| - 1]) {
      TrimRightIsPrefix(s[..|s| - 1]);
    }
  }

  /** Trimming stops at the closing parenthesis. */
  lemma {:induction false} TrimRightStops(front: string, rest: string) returns (kept: string)
    requires front != "" && !IsTrimmed(front[|front| - 1])
    ensures kept <= rest && TrimRight(front + rest) == front + kept
  {
    if rest == "" || !IsTrimmed(rest[|rest| - 1]) {
      kept := rest;
      assert front + "" == front;
    } else {
      var init := rest[..|rest| - 1];
      assert (front + rest)[..|front + rest| - 1] == front + init;
      kept := TrimRightStops(front, init);
    }
  }

  /** The whole name is cut, behind the number. */
  lemma ShapeOfCut(stem: string, index: nat, suffix: string) returns (r: string)
    requires stem != "" && !IsTrimmed(stem[0]) && |Encode(stem + Insertion(index))| <= 255
    ensures r <= suffix && Trim(Truncate(stem + Insertion(index) + suffix, 255)) == stem + Insertion(index) + r
  {
    hide EncodeChar, Encode, Truncate, DecimalText;
    var front := stem + Insertion(index);
    var whole := front + suffix;
    TruncateIsLongestPrefix(whole, 255);
    var cut := Truncate(whole, 255);
    assert whole[..|front|] == front;
    var rest := cut[|front|..];
    assert cut == front + rest;
    assert cut[0] == stem[0];
    assert front[|front| - 1] == ')';
    r := TrimRightStops(front, rest);
  }

  lemma OneCharBytes(c: char)
    ensures |Encode([c])| == Width(c)
  {
    hide EncodeChar;
    assert [c][1..] == "";
  }

  lemma Opening(a: string, m: string)
    ensures |a + "(" + m| == |a| + 1 + |m| && (a + "(" + m)[|a|] == '(' && (a + "(" + m)[|a| + 1..] == m
  {
  }

  /** Nothing after the opening parenthesis is one. */
  lemma OpeningIsLast(s: string, at: nat, other: nat)
    requires at < |s| && IsNumeral(s[at + 1..]) && other < |s| && s[other] == '('
    ensures other <= at
  {
    var m := s[at + 1..];
    assert other <= at || IsDigit(m[other - at - 1]);
  }

  /** The numeral can be read off the end. */
  lemma SameNumeral(a: string, m: string, b: string, n: string)
    requires IsNumeral(m) && IsNumeral(n) && a + "(" + m == b + "(" + n
    ensures m == n
  {
    hide IsNumeral;
    Opening(a, m);
    Opening(b, n);
    var s := a + "(" + m;
    OpeningIsLast(s, |a|, |b|);
    OpeningIsLast(s, |b|, |a|);
  }

  lemma {:induction false} LeadingNumeral(m: string, x: string, n: string, y: string)
    requires IsNumeral(m) && IsNumeral(n) && m + ")" + x == n + ")" + y
    ensures m == n
  {
    var s := m + ")" + x;
    assert s[|m|] == ')' && s[|n|] == ')';
    assert forall k :: 0 <= k < |m| ==> s[k] == m[k];
    assert forall k :: 0 <= k < |n| ==> s[k] == n[k];
    assert |m| == |n|;
    assert s[..|m|] == m && s[..|n|] == n;
  }

  lemma SameFront(stem: string, i: nat, x: string, j: nat, y: string)
    requires stem + Insertion(i) + x == stem + Insertion(j) + y
    ensures i == j
  {
    hide DecimalText;
    var m, n := DecimalText(i), DecimalText(j);
    assert stem + Insertion(i) + x == (stem + " (") + (m + ")" + x);
    assert stem + Insertion(j) + y == (stem + " (") + (n + ")" + y);
    SameAfter(stem + " (", m + ")" + x, n + ")" + y);
    LeadingNumeral(m, x, n, y);
    ReadsBack(i);
    ReadsBack(j);
  }

  lemma SameAfter(front: string, a: string, b: string)
    requires front + a == front + b
    ensures a == b
  {
    assert (front + a)[|front|..] == a && (front + b)[|front|..] == b;
  }

  lemma SameEnd(a: string, i: nat, b: string, j: nat, suffix: string)
    requires a + Insertion(i) + suffix == b + Insertion(j) + suffix
    ensures i == j
  {
    hide DecimalText;
    SameBefore(a + Insertion(i), b + Insertion(j), suffix);
    var m, n := DecimalText(i), DecimalText(j);
    assert a + Insertion(i) == (a + " " + "(" + m) + ")";
    assert b + Insertion(j) == (b + " " + "(" + n) + ")";
    SameBefore(a + " " + "(" + m, b + " " + "(" + n, ")");
    SameNumeral(a + " ", m, b + " ", n);
    ReadsBack(i);
    ReadsBack(j);
  }

  /** A number has one space, its first character. */
  lemma OneSpace(index: nat)
    ensures |Insertion(index)| >= 4 && Insertion(index)[0] == ' ' && forall k :: 0 < k < |Insertion(index)| ==>
      Insertion(index)[k] != ' '
  {
    hide DecimalText;
    var digits := DecimalText(index);
    forall k | 0 < k < |Insertion(index)| ensures Insertion(index)[k] != ' ' {
      assert 2 <= k < 2 + |digits| ==> Insertion(index)[k] == digits[k - 2];
    }
  }

  /** A cut stem before a whole suffix is never the whole stem before a cut suffix. */
  lemma CutStemOrCutSuffix(stem: string, suffix: string, p: string, i: nat, j: nat, r: string)
    requires p <= stem && p != stem && r <= suffix
    requires |stem| < 10 && |suffix| > 60 && suffix[0] == '.' && forall k :: 0 < k < |suffix| ==> suffix[k] != '.'
    requires |Insertion(j)| <= 6
    ensures p + Insertion(i) + suffix != stem + Insertion(j) + r
  {
    hide Insertion;
    OneSpace(i);
    OneSpace(j);
    var x, y := p + Insertion(i) + suffix, stem + Insertion(j) + r;
    var n, v := |p| + |Insertion(i)|, |stem| + |Insertion(j)|;
    assert y[|stem|] == ' ';
    if |stem| < n {
      assert x[|stem|] == Insertion(i)[|stem| - |p|];
    } else if |x| == |y| {
      assert y[v] == r[0] == suffix[0];
      assert x[v] == suffix[v - n];
    }
  }

  lemma SafeNamesDiffer(filename: string, i: nat, j: nat)
    requires IsSafe(filename) && 0 < i < 1000 && 0 < j < 1000 && Candidate(filename, i) == Candidate(filename, j)
    ensures i == j
  {
    hide Candidate, IsSafe, SuffixStart, Insertion;
    var stem, suffix := Stem(filename), Suffix(filename);
    var p, r := Shape(filename, i);
    var q, t := Shape(filename, j);
    if r == suffix && t == suffix {
      SameEnd(p, i, q, j, suffix);
    } else if p == stem && q == stem {
      SameFront(stem, i, r, j, t);
    } else {
      LongSuffix(filename);
      BytesAtMost4(stem);
      BytesAtMost4(suffix);
      InsertionLength(i);
      InsertionLength(j);
      if q == stem {
        CutStemOrCutSuffix(stem, suffix, p, i, j, t);
      } else {
        CutStemOrCutSuffix(stem, suffix, q, j, i, r);
      }
    }
  }

  lemma InsertionLength(index: nat)
    requires index < 1000
    ensures |Insertion(index)| <= 6
  {
    NumeralLength(index);
  }

  lemma SameBefore(a: string, b: string, end: string)
    requires a + end == b + end
    ensures a == b
  {
    assert (a + end)[..|a|] == a && (b + end)[..|b|] == b;
  }

  // ---- Allocation

  /** `_available_destination_path` in a directory that holds the names `taken`: the first
      candidate that is free, None after a thousand. */
  method AvailableName(taken: set<string>, filename: string) returns (name: Option<string>)
    ensures name.Some? <==> exists i :: 0 <= i < 1000 && Candidate(filename, i) !in taken
    ensures name.Some? ==> name.value !in taken
    ensures name.Some? ==>
      exists i :: 0 <= i < 1000 && name.value == Candidate(filename, i)
        && forall k :: 0 <= k < i ==> Candidate(filename, k) in taken
  {
    hide Fit;
    for index := 0 to 1000
      invariant forall k :: 0 <= k < index ==> Candidate(filename, k) in taken
    {
      var candidate := filename;
      if index != 0 {
        candidate := FitName(filename, " (" + DecimalText(index) + ")", 255);
      }
      assert candidate == Candidate(filename, index);
      if candidate !in taken {
        return Some(candidate);
      }
    }
    return None;
  }

  ghost function CandidatesUpTo(filename: string, n: nat): set<string> {
    set i | 0 < i <= n :: Candidate(filename, i)
  }

  lemma {:induction false} CandidateCount(filename: string, n: nat)
    requires IsSafe(filename) && n < 1000
    ensures |CandidatesUpTo(filename, n)| == n
  {
    hide Candidate, IsSafe;
    if n == 0 {
      assert CandidatesUpTo(filename, n) == {};
    } else {
      CandidateCount(filename, n - 1);
      if Candidate(filename, n) in CandidatesUpTo(filename, n - 1) {
        var i :| 0 < i <= n - 1 && Candidate(filename, i) == Candidate(filename, n);
        SafeNamesDiffer(filename, i, n);
      }
      assert CandidatesUpTo(filename, n) == CandidatesUpTo(filename, n - 1) + {Candidate(filename, n)};
    }
  }

  lemma SafeAllocationSucceeds(taken: set<string>, filename: string)
    requires IsSafe(filename) && |taken| < 999
    ensures exists i :: 0 <= i < 1000 && Candidate(filename, i) !in taken
  {
    hide Candidate, IsSafe;
    CandidateCount(filename, 999);
    if forall i :: 0 <= i < 1000 ==> Candidate(filename, i) in taken {
      SubsetSize(CandidatesUpTo(filename, 999), taken);
    }
  }

  // ---- The names that the allocator is given

  /** How a name is cleaned before it is fitted: the replacements of `_sanitize_download_filename`
      and `_avoid_windows_reserved_download_filename`, whatever they do. */
  datatype Cleaning = Cleaning(clean: string -> string, avoidReserved: string -> string)

  /** `_sanitize_download_filename` */
  ghost function Sanitized(c: Cleaning, filename: string): string {
    var cleaned := c.clean(filename);
    if cleaned == "" then DOWNLOAD_FILENAME_FALLBACK else Fit(c.avoidReserved(cleaned), "", MAX_DOWNLOAD_FILENAME_BYTES)
  }

  /** `_sanitize_download_filename` as it runs */
  method Sanitize(c: Cleaning, filename: string) returns (safe: string)
    ensures safe == Sanitized(c, filename)
  {
    var cleaned := c.clean(filename);
    if |cleaned| == 0 {
      return "veridoc-result.json";
    }
    safe := FitName(c.avoidReserved(cleaned), "", 255);
  }

  lemma {:induction false} TrimLeftFirst(s: string)
    ensures TrimLeft(s) != "" ==> !IsTrimmed(TrimLeft(s)[0])
  {
    if s != "" && IsTrimmed(s[0]) {
      TrimLeftFirst(s[1..]);
    }
  }

  lemma TrimFirst(s: string)
    ensures Trim(s) != "" ==> !IsTrimmed(Trim(s)[0])
  {
    TrimLeftFirst(s);
    TrimRightIsPrefix(TrimLeft(s));
  }

  /** Fitting makes a name safe to number. */
  lemma FittedIsSafe(filename: string)
    ensures IsSafe(Fit(filename, "", MAX_DOWNLOAD_FILENAME_BYTES))
  {
    hide EncodeChar, Encode, Trim, Truncate, SuffixStart;
    FitWithinLimit(filename, "", MAX_DOWNLOAD_FILENAME_BYTES);
    TrimFirst(Truncate(Stem(filename), MAX_DOWNLOAD_FILENAME_BYTES - |Encode("" + Suffix(filename))|));
    TrimFirst(Truncate(Stem(filename) + "" + Suffix(filename), MAX_DOWNLOAD_FILENAME_BYTES));
  }

  lemma SanitizedIsSafe(c: Cleaning, filename: string)
    ensures IsSafe(Sanitized(c, filename))
  {
    hide Encode, EncodeChar, Fit, Suffix;
    FallbackBytes();
    FittedIsSafe(c.avoidReserved(c.clean(filename)));
  }

  /** Whatever name is downloaded, different numbers give different names. */
  lemma NumberedNamesDiffer(c: Cleaning, filename: string, i: nat, j: nat)
    requires 0 < i < 1000 && 0 < j < 1000
    ensures Candidate(Sanitized(c, filename), i) == Candidate(Sanitized(c, filename), j) ==> i == j
  {
    hide Candidate, IsSafe, Sanitized;
    SanitizedIsSafe(c, filename);
    if Candidate(Sanitized(c, filename), i) == Candidate(Sanitized(c, filename), j) {
      SafeNamesDiffer(Sanitized(c, filename), i, j);
    }
  }

  /** Whatever name is downloaded, a free one is found while fewer than 999 are taken. */
  lemma AllocationSucceeds(c: Cleaning, taken: set<string>, filename: string)
    requires |taken| < 999
    ensures exists i :: 0 <= i < 1000 && Candidate(Sanitized(c, filename), i) !in taken
  {
    hide Candidate, IsSafe, Sanitized;
    SanitizedIsSafe(c, filename);
    SafeAllocationSucceeds(taken, Sanitized(c, filename));
  }

  // ---- Why names are fitted before they are numbered

  ghost function Dashes(n: nat): string {
    seq(n, i => '-')
  }

  lemma {:induction false} TrimDashes(n: nat)
    ensures TrimLeft(Dashes(n)) == "" && Trim(Dashes(n)) == ""
  {
    if n > 0 {
      assert Dashes(n)[1..] == Dashes(n - 1);
      TrimDashes(n - 1);
    }
  }

  /** A name of 255 dashes or more that has not been fitted would lose its numbers: every candidate
      but itself would be the fallback. */
  lemma DashesLoseTheirNumbers(n: nat, index: nat)
    requires n >= 255 && index > 0
    ensures Candidate(Dashes(n), index) == DOWNLOAD_FILENAME_FALLBACK
  {
    hide EncodeChar, Truncate, Encode;
    var name := Dashes(n);
    DashesHaveNoSuffix(n);
    var available := MAX_DOWNLOAD_FILENAME_BYTES - |Encode(Insertion(index) + "")|;
    if available > 0 {
      TruncateIsLongestPrefix(name, available);
      assert Truncate(name, available) == Dashes(|Truncate(name, available)|);
      TrimDashes(|Truncate(name, available)|);
    }
    var whole := name + Insertion(index) + "";
    TruncateIsLongestPrefix(whole, 255);
    var cut := Truncate(whole, 255);
    if |cut| > 255 {
      assert cut[..255] == Dashes(255);
      assert cut == Dashes(255) + cut[255..];
      EncodeConcat(Dashes(255), cut[255..]);
      AsciiBytes(Dashes(255));
      NonEmptyBytes(cut[255..]);
    }
    assert cut == Dashes(|cut|);
    TrimDashes(|cut|);
  }

  lemma NonEmptyBytes(s: string)
    requires s != ""
    ensures |Encode(s)| > 0
  {
    PositiveWidth(s[0]);
  }

  lemma DashesHaveNoSuffix(n: nat)
    requires n >= 255
    ensures Stem(Dashes(n)) == Dashes(n) && Suffix(Dashes(n)) == ""
  {
    var name := Dashes(n);
    assert LastDot(name) == n;
    assert LowerAscii(name[n - 20..])[0] == '-' && COMPOUND_SUFFIX[0] == '.';
  }
}
