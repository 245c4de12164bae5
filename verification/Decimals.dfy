/** Decimal numerals: `int(digits)` and `str(n)`. */
module Decimals {

  predicate IsDigit(c: char) {
    '0' <= c <= '9'
  }

  predicate IsNumeral(digits: string) {
    digits != "" && forall i :: 0 <= i < |digits| ==> IsDigit(digits[i])
  }

  function Decimal(digits: string): nat
    requires forall i :: 0 <= i < |digits| ==> IsDigit(digits[i])
  {
    if digits == "" then 0
    else
      assert IsDigit(digits[|digits| - 1]);
      Decimal(digits[..|digits| - 1]) * 10 + (digits[|digits| - 1] as int - '0' as int)
  }

  function DecimalText(n: nat): (digits: string)
    ensures IsNumeral(digits)
  {
    var last := [('0' as int + n % 10) as char];
    if n < 10 then last else DecimalText(n / 10) + last
  }

  /** Reading what was written; so different numbers are written differently. */
  lemma {:induction false} ReadsBack(n: nat)
    ensures Decimal(DecimalText(n)) == n
  {
    var digits := DecimalText(n);
    var init := digits[..|digits| - 1];
    if n < 10 {
      assert init == "";
    } else {
      ReadsBack(n / 10);
      assert init == DecimalText(n / 10);
    }
  }

  /** `f"{n:0{width}d}"` */
  function Padded(n: nat, width: nat): string {
    Zeros(width - |DecimalText(n)|) + DecimalText(n)
  }

  function Zeros(n: int): (zeros: string)
    ensures |zeros| == (if n < 0 then 0 else n) && forall i :: 0 <= i < |zeros| ==> zeros[i] == '0'
  {
    if n <= 0 then "" else "0" + Zeros(n - 1)
  }

  lemma {:induction false} LeadingZeros(zeros: string, digits: string)
    requires (forall i :: 0 <= i < |zeros| ==> zeros[i] == '0') && forall i :: 0 <= i < |digits| ==> IsDigit(digits[i])
    ensures Decimal(zeros + digits) == Decimal(digits)
  {
    if digits == "" {
      assert zeros + digits == zeros;
      if zeros != "" {
        LeadingZeros(zeros[..|zeros| - 1], "");
        assert zeros[..|zeros| - 1] + "" == zeros[..|zeros| - 1];
      }
    } else {
      assert (zeros + digits)[..|zeros + digits| - 1] == zeros + digits[..|digits| - 1];
      LeadingZeros(zeros, digits[..|digits| - 1]);
    }
  }

  lemma PaddedReadsBack(n: nat, width: nat)
    ensures forall i :: 0 <= i < |Padded(n, width)| ==> IsDigit(Padded(n, width)[i])
    ensures Decimal(Padded(n, width)) == n
  {
    LeadingZeros(Zeros(width - |DecimalText(n)|), DecimalText(n));
    ReadsBack(n);
  }

  // ---- Numerals without leading zeros

  /** `0|[1-9][0-9]*` */
  predicate IsCanonical(digits: string) {
    IsNumeral(digits) && (|digits| == 1 || digits[0] != '0')
  }

  lemma {:induction false} CanonicalValue(digits: string)
    requires IsCanonical(digits)
    ensures digits[0] == '0' <==> Decimal(digits) == 0
    ensures |digits| > 1 ==> Decimal(digits) >= 10
  {
    if |digits| > 1 {
      CanonicalValue(digits[..|digits| - 1]);
    }
  }

  /** A canonical numeral is how its value is written. */
  lemma {:induction false} CanonicalText(digits: string)
    requires IsCanonical(digits)
    ensures DecimalText(Decimal(digits)) == digits
  {
    var init, last := digits[..|digits| - 1], digits[|digits| - 1];
    assert digits == init + [last];
    var d := last as int - '0' as int;
    if |digits| == 1 {
      assert Decimal(init) == 0;
    } else {
      CanonicalText(init);
      CanonicalValue(init);
      var n := Decimal(digits);
      assert n == Decimal(init) * 10 + d && 0 <= d < 10;
      assert n / 10 == Decimal(init) && n % 10 == d;
    }
  }

  lemma {:induction false} TextIsCanonical(n: nat)
    ensures IsCanonical(DecimalText(n)) && (n > 0 ==> DecimalText(n)[0] != '0')
  {
    if n >= 10 {
      TextIsCanonical(n / 10);
    }
  }
}
