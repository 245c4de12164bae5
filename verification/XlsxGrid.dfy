/** Cell references, and cells placed on a grid of rows and columns. */
module XlsxGrid {
  import opened Prelude
  import opened Decimals
  import opened ColumnCode

  // ---- References

  function LetterRun(s: string): (n: nat)
    ensures n <= |s|
    ensures forall i :: 0 <= i < n ==> IsLetter(s[i])
    ensures n < |s| ==> !IsLetter(s[n])
  {
    if s == "" || !IsLetter(s[0]) then 0 else 1 + LetterRun(s[1..])
  }

  function DigitRun(s: string): (n: nat)
    ensures n <= |s|
    ensures forall i :: 0 <= i < n ==> IsDigit(s[i])
    ensures n < |s| ==> !IsDigit(s[n])
  {
    if s == "" || !IsDigit(s[0]) then 0 else 1 + DigitRun(s[1..])
  }

  datatype Position = Position(row: nat, column: nat)

  /** `([A-Za-z]+)([1-9][0-9]*)` at the start of `s`: its two lengths, if it is there. */
  function ReferenceAt(s: string): (r: Option<(nat, nat)>)
    ensures r.Some? ==> 0 < r.value.0 < r.value.0 + r.value.1 <= |s|
    ensures r.Some? ==> forall i :: 0 <= i < r.value.0 ==> IsLetter(s[i])
    ensures r.Some? ==> forall i :: r.value.0 <= i < r.value.0 + r.value.1 ==> IsDigit(s[i])
  {
    var letters := LetterRun(s);
    var digits := DigitRun(s[letters..]);
    if 0 < letters && 0 < digits && s[letters] != '0' then Some((letters, digits)) else None
  }

  function PositionOf(letters: string, digits: string): Position
    requires forall i :: 0 <= i < |letters| ==> IsLetter(letters[i])
    requires forall i :: 0 <= i < |digits| ==> IsDigit(digits[i])
  {
    LettersBecomeCode(letters);
    Position(Decimal(digits), ColumnIndex(Upper(letters)))
  }

  /** `_xlsx_cell_coordinates`: the whole reference must match. */
  function Coordinates(ref: string): Option<Position> {
    match ReferenceAt(ref)
    case None => None
    case Some((letters, digits)) =>
      if letters + digits == |ref| then Some(PositionOf(ref[..letters], ref[letters..])) else None
  }

  lemma {:induction false} RunsGoOn(s: string, t: string)
    requires t != ""
    ensures !IsLetter(t[0]) ==> LetterRun(s + t) == LetterRun(s)
    ensures !IsDigit(t[0]) ==> DigitRun(s + t) == DigitRun(s)
  {
    if s == "" {
      assert s + t == t;
    } else {
      assert (s + t)[1..] == s[1..] + t;
      RunsGoOn(s[1..], t);
    }
  }

  /** A whole reference followed by something else than a letter or digit is found in front. */
  lemma ReferenceInFront(ref: string, t: string)
    requires Coordinates(ref).Some? && t != "" && !IsLetter(t[0]) && !IsDigit(t[0])
    ensures ReferenceAt(ref + t) == ReferenceAt(ref)
  {
    var letters := LetterRun(ref);
    RunsGoOn(ref, t);
    assert (ref + t)[letters..] == ref[letters..] + t;
    RunsGoOn(ref[letters..], t);
    assert (ref + t)[letters] == ref[letters];
  }

  lemma {:induction false} PositiveRow(digits: string)
    requires forall i :: 0 <= i < |digits| ==> IsDigit(digits[i])
    requires digits != "" && digits[0] != '0'
    ensures Decimal(digits) > 0
  {
    if |digits| > 1 {
      PositiveRow(digits[..|digits| - 1]);
    }
  }

  /** Rows and columns count from 1. */
  lemma CoordinatesArePositive(ref: string)
    requires Coordinates(ref).Some?
    ensures Coordinates(ref).value.row > 0 && Coordinates(ref).value.column > 0
  {
    var letters := LetterRun(ref);
    PositiveRow(ref[letters..]);
    LettersBecomeCode(ref[..letters]);
  }

  lemma {:induction false} RunsAre(letters: string, digits: string)
    requires forall i :: 0 <= i < |letters| ==> IsLetter(letters[i])
    requires forall i :: 0 <= i < |digits| ==> IsDigit(digits[i])
    ensures LetterRun(letters + digits) == |letters|
    ensures DigitRun(digits) == |digits|
  {
    if letters != "" {
      assert (letters + digits)[1..] == letters[1..] + digits;
      RunsAre(letters[1..], digits);
    } else if digits != "" {
      assert letters + digits == digits;
      RunsAre("", digits[1..]);
      assert "" + digits[1..] == digits[1..];
    } else {
      assert letters + digits == "";
    }
  }

  /** A reference to a position is the name of its column, in either case, and the numeral of its
      row. */
  ghost predicate IsReference(ref: string, letters: string, at: Position) {
    && at.row > 0 && at.column > 0
    && ref == letters + DecimalText(at.row)
    && (forall i :: 0 <= i < |letters| ==> 'A' <= letters[i] <= 'Z' || 'a' <= letters[i] <= 'z')
    && Upper(letters) == ColumnName(at.column)
  }

  /** Exactly the references to a position are read as that position. */
  lemma CoordinatesMean(ref: string, at: Position)
    ensures Coordinates(ref) == Some(at) <==> exists letters :: IsReference(ref, letters, at)
  {
    if Coordinates(ref) == Some(at) {
      CoordinatesArePositive(ref);
      var n := LetterRun(ref);
      var letters, digits := ref[..n], ref[n..];
      CanonicalText(digits);
      LettersBecomeCode(letters);
      NameOfIndex(Upper(letters));
      assert ref == letters + digits;
      assert IsReference(ref, letters, at);
    }
    if letters :| IsReference(ref, letters, at) {
      ReferenceIsRead(ref, letters, at);
    }
  }

  lemma ReferenceIsRead(ref: string, letters: string, at: Position)
    requires IsReference(ref, letters, at)
    ensures Coordinates(ref) == Some(at)
  {
    var digits := DecimalText(at.row);
    RunsAre(letters, digits);
    TextIsCanonical(at.row);
    ReadsBack(at.row);
    IndexOfName(at.column);
    assert ref[..|letters|] == letters && ref[|letters|..] == digits;
    assert |Upper(letters)| == |letters|;
  }

  // ---- Grids

  type Row = map<nat, string>
  type Grid = map<nat, Row>

  function RowAt(grid: Grid, r: nat): Row {
    if r in grid then grid[r] else map[]
  }

  /** `grid.setdefault(r, {})[c] = text` */
  function Put(grid: Grid, at: Position, text: string): Grid {
    grid[at.row := RowAt(grid, at.row)[at.column := text]]
  }

  function CellAt(row: Row, c: nat): string {
    if c in row then row[c] else ""
  }

  /** Columns 1 to `width` of a row, blank where there is no cell. */
  function Dense(row: Row, width: nat): seq<string> {
    seq(width, i requires 0 <= i < width => CellAt(row, i + 1))
  }

  function Occupied(grid: Grid): set<nat> {
    set r, c | r in grid && c in grid[r] :: c
  }

  /** Every row holds a cell, every cell text, and positions count from 1. */
  ghost predicate IsFilled(grid: Grid) {
    forall r :: r in grid ==> r > 0 && grid[r] != map[] && forall c :: c in grid[r] ==> c > 0 && grid[r][c] != ""
  }
}
