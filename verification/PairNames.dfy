/** The labels `"<left> vs <right>"` of mismatching candidate pairs, and Python's `str.split` that
    takes them apart again (core/parsers/pdf_table_extraction.py, `_select_candidate`). */
module PairNames {
  import opened Prelude

  const SEPARATOR := " vs "

  predicate StartsHere(s: string, i: int) {
    0 <= i && i + 4 <= |s| && s[i] == ' ' && s[i + 1] == 'v' && s[i + 2] == 's' && s[i + 3] == ' '
  }

  lemma StartsMeans(s: string, i: int)
    ensures StartsHere(s, i) <==> 0 <= i && i + 4 <= |s| && s[i..i + 4] == " vs "
  {
    if 0 <= i && i + 4 <= |s| {
      var at := s[i..i + 4];
      assert at[0] == s[i] && at[1] == s[i + 1] && at[2] == s[i + 2] && at[3] == s[i + 3];
    }
  }

  /** Where the first separator starts, if there is one from `from` on. */
  function FirstFrom(s: string, from: nat): (at: Option<nat>)
    requires from <= |s|
    ensures at.Some? ==> from <= at.value && StartsHere(s, at.value) && forall i :: from <= i < at.value ==>
      !StartsHere(s, i)
    ensures at.None? ==> forall i :: from <= i ==> !StartsHere(s, i)
    decreases |s| - from
  {
    if StartsHere(s, from) then Some(from) else if from == |s| then None else FirstFrom(s, from + 1)
  }

  function First(s: string): Option<nat> {
    FirstFrom(s, 0)
  }

  /** `s.split(" vs ")` */
  function Split(s: string): (parts: seq<string>)
    ensures parts != []
    decreases |s|
  {
    match First(s)
    case None => [s]
    case Some(i) => [s[..i]] + Split(s[i + 4..])
  }

  function Label(left: string, right: string): string {
    left + SEPARATOR + right
  }

  lemma JoinCharacters(left: string, right: string)
    ensures |Label(left, right)| == |left| + 4 + |right|
    ensures Label(left, right)[|left|] == ' ' && Label(left, right)[|left| + 1] == 'v'
      && Label(left, right)[|left| + 2] == 's' && Label(left, right)[|left| + 3] == ' '
    ensures forall i :: 0 <= i < |left| ==> Label(left, right)[i] == left[i]
    ensures Label(left, right)[|left| + 4..] == right
  {
    assert Label(left, right) == left + (SEPARATOR + right);
    assert (SEPARATOR + right)[4..] == right;
  }

  ghost predicate EndsLikeSeparator(s: string) {
    |s| >= 3 && s[|s| - 3] == ' ' && s[|s| - 2] == 'v' && s[|s| - 1] == 's'
  }

  lemma EndsMeans(s: string)
    ensures EndsLikeSeparator(s) <==> |s| >= 3 && s[|s| - 3..] == " vs"
  {
    if |s| >= 3 {
      var end := s[|s| - 3..];
      assert end[0] == s[|s| - 3] && end[1] == s[|s| - 2] && end[2] == s[|s| - 1];
    }
  }

  /** The last piece of the name ends in " vs", so that the separator after it is torn apart. */
  ghost predicate Confusable(name: string) {
    EndsLikeSeparator(Split(name)[|Split(name)| - 1])
  }

  lemma FirstIs(s: string, at: nat)
    requires StartsHere(s, at) && forall i :: 0 <= i < at ==> !StartsHere(s, i)
    ensures First(s) == Some(at)
  {
  }

  /** Up to four characters before the joint, a label has separators where its left name has. */
  lemma SameStarts(left: string, right: string, j: nat)
    requires j < |left| && (StartsHere(left, j) || !EndsLikeSeparator(left) || j + 4 <= |left|)
    ensures StartsHere(Label(left, right), j) <==> StartsHere(left, j)
  {
    JoinCharacters(left, right);
    var whole := Label(left, right);
    assert whole[j] == left[j];
    if j + 1 < |left| { assert whole[j + 1] == left[j + 1]; }
    if j + 2 < |left| { assert whole[j + 2] == left[j + 2]; }
    if j + 3 < |left| { assert whole[j + 3] == left[j + 3]; }
  }

  lemma StartsAtJoint(left: string, right: string)
    ensures StartsHere(Label(left, right), |left|)
  {
    JoinCharacters(left, right);
  }

  /** A label splits at its own separator, unless the left name is confusable. */
  lemma {:induction false} LabelSplits(left: string, right: string)
    requires !Confusable(left)
    ensures Split(Label(left, right)) == Split(left) + Split(right)
    decreases |left|
  {
    hide FirstFrom, StartsHere, EndsLikeSeparator;
    var whole := Label(left, right);
    JoinCharacters(left, right);
    match First(left)
    case None =>
      forall j: nat | j < |left| ensures !StartsHere(whole, j) {
        SameStarts(left, right, j);
      }
      StartsAtJoint(left, right);
      FirstIs(whole, |left|);
      assert whole[..|left|] == left;
    case Some(i) =>
      StartFits(left, i);
      assert Split(left) == [left[..i]] + Split(left[i + 4..]);
      LabelSplits(left[i + 4..], right);
      forall j: nat | j <= i ensures StartsHere(whole, j) <==> StartsHere(left, j) {
        SameStarts(left, right, j);
      }
      FirstIs(whole, i);
      assert whole[i + 4..] == Label(left[i + 4..], right) by {
        assert whole == left + (SEPARATOR + right);
        assert Label(left[i + 4..], right) == left[i + 4..] + (SEPARATOR + right);
      }
      assert whole[..i] == left[..i];
  }

  lemma StartFits(s: string, i: int)
    requires StartsHere(s, i)
    ensures 0 <= i && i + 4 <= |s|
  {
  }

  /** The right name is one of the pieces of every label. */
  ghost predicate Reveals(left: string, right: string) {
    right in Split(Label(left, right))
  }

  ghost predicate IsPlain(name: string) {
    First(name).None?
  }

  lemma PlainSplit(name: string)
    requires IsPlain(name)
    ensures Split(name) == [name]
  {
  }

  lemma UnconfusableReveals(left: string, right: string)
    requires !Confusable(left) && IsPlain(right)
    ensures Reveals(left, right)
  {
    LabelSplits(left, right);
    PlainSplit(right);
    var parts := Split(Label(left, right));
    assert parts[|parts| - 1] == right;
  }

  /** A plain name that does not end in " vs" is found on either side. */
  lemma LeftIsRevealed(left: string, right: string)
    requires IsPlain(left) && !EndsLikeSeparator(left)
    ensures left in Split(Label(left, right))
  {
    PlainSplit(left);
    LabelSplits(left, right);
    assert Split(Label(left, right))[0] == left;
  }
}
