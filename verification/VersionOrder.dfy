/** Template versions `major.minor.patch` (core/ir/template_versions.py, `_version_key`; sections 2
    and 11 of Semantic Versioning 2.0.0). */
module VersionOrder {
  import opened Prelude
  import opened Decimals
  import opened DottedText

  datatype VersionKey = VersionKey(major: nat, minor: nat, patch: nat)

  function KeyOf(version: string): Option<VersionKey> {
    var parts := SplitDots(version);
    if |parts| == 3 && IsCanonical(parts[0]) && IsCanonical(parts[1]) && IsCanonical(parts[2]) then
      Some(VersionKey(Decimal(parts[0]), Decimal(parts[1]), Decimal(parts[2])))
    else None
  }

  /** How the version with these numbers is written. */
  ghost function Written(major: nat, minor: nat, patch: nat): string {
    DecimalText(major) + "." + DecimalText(minor) + "." + DecimalText(patch)
  }

  /** A key is read exactly off the version that is written with its numbers. */
  lemma KeyIsWritten(version: string, k: VersionKey)
    ensures KeyOf(version) == Some(k) <==> version == Written(k.major, k.minor, k.patch)
  {
    if KeyOf(version) == Some(k) {
      var parts := SplitDots(version);
      forall i | 0 <= i < 3 ensures DecimalText(Decimal(parts[i])) == parts[i] {
        CanonicalText(parts[i]);
      }
      assert parts == [parts[0], parts[1], parts[2]];
      JoinOfSplit(version);
      JoinOfThree(parts[0], parts[1], parts[2]);
    }
    if version == Written(k.major, k.minor, k.patch) {
      WrittenHasKey(k);
    }
  }

  lemma JoinOfThree(a: string, b: string, c: string)
    ensures JoinDots([a, b, c]) == a + "." + b + "." + c
  {
    assert [a, b, c][1..] == [b, c] && [b, c][1..] == [c];
    assert JoinDots([c]) == c && JoinDots([b, c]) == b + "." + c;
    assert a + "." + (b + "." + c) == a + "." + b + "." + c;
  }

  lemma WrittenHasKey(k: VersionKey)
    ensures KeyOf(Written(k.major, k.minor, k.patch)) == Some(k)
  {
    var a, b, c := DecimalText(k.major), DecimalText(k.minor), DecimalText(k.patch);
    TextHasNoDot(a);
    TextHasNoDot(b);
    TextHasNoDot(c);
    assert a + "." + b + "." + c == a + "." + (b + "." + c);
    SplitDotsOfPart(a, b + "." + c);
    SplitDotsOfPart(b, c);
    SplitDotsOfPart(c, "");
    assert SplitDots(Written(k.major, k.minor, k.patch)) == [a, b, c];
    TextIsCanonical(k.major);
    TextIsCanonical(k.minor);
    TextIsCanonical(k.patch);
    ReadsBack(k.major);
    ReadsBack(k.minor);
    ReadsBack(k.patch);
  }

  lemma TextHasNoDot(digits: string)
    requires IsNumeral(digits)
    ensures '.' !in digits
  {
    assert forall i :: 0 <= i < |digits| ==> IsDigit(digits[i]);
  }

  /** Different versions have different keys. */
  lemma KeyIsInjective(v: string, w: string)
    requires KeyOf(v).Some? && KeyOf(v) == KeyOf(w)
    ensures v == w
  {
    var a, b := SplitDots(v), SplitDots(w);
    forall i | 0 <= i < 3 ensures a[i] == b[i] {
      CanonicalText(a[i]);
      CanonicalText(b[i]);
    }
    assert a == [a[0], a[1], a[2]] && b == [b[0], b[1], b[2]];
    JoinOfSplit(v);
    JoinOfSplit(w);
  }

  predicate Older(a: VersionKey, b: VersionKey) {
    || a.major < b.major
    || (a.major == b.major && a.minor < b.minor)
    || (a.major == b.major && a.minor == b.minor && a.patch < b.patch)
  }
}
