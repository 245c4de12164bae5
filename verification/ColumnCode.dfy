/** The spreadsheet column code: letters as bijective base-26 numerals
    (core/ir/document_ir_v1.py and core/ir/template_fingerprint.py, `_xlsx_column_index`). */
module ColumnCode {

  predicate IsLetter(c: char) {
    'A' <= c <= 'Z' || 'a' <= c <= 'z'
  }

  function UpperChar(c: char): char {
    if 'a' <= c <= 'z' then (c as int - 'a' as int + 'A' as int) as char else c
  }

  function Upper(s: string): string {
    seq(|s|, i requires 0 <= i < |s| => UpperChar(s[i]))
  }

  /** A column code: capital letters. */
  predicate IsCode(s: string) {
    forall i :: 0 <= i < |s| ==> 'A' <= s[i] <= 'Z'
  }

  function ColumnIndex(code: string): nat
    requires IsCode(code)
  {
    if code == "" then 0
    else
      ColumnIndex(code[..|code| - 1]) * 26 + (code[|code| - 1] as int - 'A' as int + 1)
  }

  /** `_xlsx_column_index` of document_ir_v1.py, whose callers pass capitals. */
  method XlsxColumnIndex(text: string) returns (value: nat)
    requires IsCode(text)
    ensures value == ColumnIndex(text)
  {
    value := 0;
    for i := 0 to |text|
      invariant value == ColumnIndex(text[..i])
    {
      assert text[..i + 1][..i] == text[..i];
      value := value * 26 + (text[i] as int - 'A' as int + 1);
    }
    assert text[..|text|] == text;
  }

  /** `_xlsx_column_index` of template_fingerprint.py, which capitalises first. */
  method XlsxColumnIndexUpper(text: string) returns (value: nat)
    requires forall i :: 0 <= i < |text| ==> IsLetter(text[i])
    ensures IsCode(Upper(text)) && value == ColumnIndex(Upper(text))
  {
    var upper := Upper(text);
    LettersBecomeCode(text);
    value := 0;
    for i := 0 to |upper|
      invariant value == ColumnIndex(upper[..i])
    {
      assert upper[..i + 1][..i] == upper[..i];
      value := value * 26 + (upper[i] as int - 'A' as int + 1);
    }
    assert upper[..|upper|] == upper;
  }

  lemma LettersBecomeCode(text: string)
    requires forall i :: 0 <= i < |text| ==> IsLetter(text[i])
    ensures IsCode(Upper(text))
  {
  }

  /** Codes are their own capitals: on them the two copies agree. */
  lemma CodesAreUpper(code: string)
    requires IsCode(code)
    ensures Upper(code) == code
  {
  }

  /** The code of column `n`; the empty code for 0. */
  ghost function ColumnName(n: nat): (code: string)
    ensures IsCode(code)
  {
    if n == 0 then "" else ColumnName((n - 1) / 26) + [('A' as int + (n - 1) % 26) as char]
  }

  lemma {:induction false} IndexOfName(n: nat)
    ensures ColumnIndex(ColumnName(n)) == n
  {
    if n > 0 {
      IndexOfName((n - 1) / 26);
      var code := ColumnName(n);
      assert code[..|code| - 1] == ColumnName((n - 1) / 26);
    }
  }

  lemma {:induction false} NameOfIndex(code: string)
    requires IsCode(code)
    ensures ColumnName(ColumnIndex(code)) == code
  {
    if code != "" {
      var init, last := code[..|code| - 1], code[|code| - 1];
      NameOfIndex(init);
      var digit := last as int - 'A' as int;
      assert (ColumnIndex(init) * 26 + digit) / 26 == ColumnIndex(init);
      assert code == init + [last];
    }
  }

  /** Codes of the same length in lexicographic order. */
  ghost predicate LexLess(a: string, b: string)
    requires |a| == |b|
  {
    a != "" &&
    (LexLess(a[..|a| - 1], b[..|b| - 1]) || (a[..|a| - 1] == b[..|b| - 1] && a[|a| - 1] < b[|b| - 1]))
  }

  ghost predicate Before(a: string, b: string) {
    |a| < |b| || (|a| == |b| && LexLess(a, b))
  }

  ghost function Lowest(length: nat): nat {
    if length == 0 then 0 else Lowest(length - 1) * 26 + 1
  }

  lemma {:induction false} LowestGrows(n: nat)
    ensures Lowest(n + 1) > Lowest(n)
  {
    if n > 0 { LowestGrows(n - 1); }
  }

  lemma {:induction false} LowestIsMonotone(m: nat, n: nat)
    requires m <= n
    ensures Lowest(m) <= Lowest(n)
    decreases n
  {
    if m < n {
      LowestIsMonotone(m, n - 1);
      LowestGrows(n - 1);
    }
  }

  lemma {:induction false} IndexInBand(code: string)
    requires IsCode(code)
    ensures Lowest(|code|) <= ColumnIndex(code) < Lowest(|code| + 1)
  {
    if code != "" {
      IndexInBand(code[..|code| - 1]);
    }
  }

  lemma DigitOrder(high: nat, high': nat, low: nat, low': nat)
    requires 1 <= low <= 26 && 1 <= low' <= 26
    ensures high * 26 + low < high' * 26 + low' <==> high < high' || (high == high' && low < low')
    ensures high * 26 + low == high' * 26 + low' <==> high == high' && low == low'
  {
  }

  lemma LastDigit(code: string) returns (digit: nat)
    requires IsCode(code) && code != ""
    ensures 1 <= digit <= 26 && digit == code[|code| - 1] as int - 'A' as int + 1
    ensures IsCode(code[..|code| - 1]) && ColumnIndex(code) == ColumnIndex(code[..|code| - 1]) * 26 + digit
  {
    digit := code[|code| - 1] as int - 'A' as int + 1;
  }

  lemma {:induction false} SameLengthMonotone(a: string, b: string)
    requires IsCode(a) && IsCode(b) && |a| == |b|
    ensures LexLess(a, b) <==> ColumnIndex(a) < ColumnIndex(b)
    ensures ColumnIndex(a) == ColumnIndex(b) <==> a == b
  {
    hide ColumnIndex, IsCode;
    if a == "" {
      assert a == b;
    } else {
      var a', b' := a[..|a| - 1], b[..|b| - 1];
      var x := LastDigit(a);
      var y := LastDigit(b);
      SameLengthMonotone(a', b');
      assert a == a' + [a[|a| - 1]] && b == b' + [b[|b| - 1]];
      DigitOrder(ColumnIndex(a'), ColumnIndex(b'), x, y);
    }
  }

  /** The code is strictly monotone in length, then lexicographic order: both directions. */
  lemma ColumnOrder(a: string, b: string)
    requires IsCode(a) && IsCode(b)
    ensures Before(a, b) <==> ColumnIndex(a) < ColumnIndex(b)
  {
    IndexInBand(a);
    IndexInBand(b);
    if |a| < |b| {
      LowestIsMonotone(|a| + 1, |b|);
    } else if |a| > |b| {
      LowestIsMonotone(|b| + 1, |a|);
    } else {
      SameLengthMonotone(a, b);
    }
  }
}
