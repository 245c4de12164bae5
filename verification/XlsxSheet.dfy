/** The grid and the text that Document IR keeps of a spreadsheet sheet
    (core/ir/document_ir_v1.py, `_xlsx_sheet_page`). */
module XlsxSheet {
  import opened Prelude
  import opened Sorting
  import opened XlsxGrid

  const XLSX_ROW_GAP_PRESERVE_MAX_COLUMNS := 256
  const XLSX_ROW_GAP_PRESERVE_MAX_ROWS := 1024

  datatype Cell = Cell(ref: string, value: Option<string>)

  predicate HasText(cell: Cell) {
    cell.value.Some? && cell.value.value != ""
  }

  // ---- The grid

  /** The last-written text at each position. */
  ghost function Positioned(cells: seq<Cell>): (grid: Grid)
    ensures IsFilled(grid)
  {
    if cells == [] then map[]
    else
      var before, last := Positioned(cells[..|cells| - 1]), cells[|cells| - 1];
      if HasText(last) && Coordinates(last.ref).Some? then
        CoordinatesArePositive(last.ref);
        FilledPut(before, Coordinates(last.ref).value, last.value.value);
        Put(before, Coordinates(last.ref).value, last.value.value)
      else before
  }

  lemma FilledPut(grid: Grid, at: Position, text: string)
    requires IsFilled(grid) && at.row > 0 && at.column > 0 && text != ""
    ensures IsFilled(Put(grid, at, text))
  {
    assert at.column in Put(grid, at, text)[at.row];
  }

  /** The texts without a usable reference, in order, a row each. */
  ghost function FallbackRows(cells: seq<Cell>): seq<seq<string>> {
    if cells == [] then []
    else
      var before, last := FallbackRows(cells[..|cells| - 1]), cells[|cells| - 1];
      if HasText(last) && Coordinates(last.ref).None? then before + [[last.value.value]] else before
  }

  ghost function LastColumn(grid: Grid): nat {
    Maximum(Occupied(grid))
  }

  ghost function LastRow(grid: Grid): nat {
    Maximum(grid.Keys)
  }

  /** Every row up to the last, every column up to the last. */
  ghost function DenseRows(grid: Grid): seq<seq<string>> {
    seq(LastRow(grid), i requires 0 <= i < LastRow(grid) => Dense(RowAt(grid, i + 1), LastColumn(grid)))
  }

  /** The rows that hold a cell, every column up to the last. */
  ghost function WideRows(grid: Grid): seq<seq<string>> {
    var keys := SortedKeys(grid.Keys);
    seq(|keys|, i requires 0 <= i < |keys| => Dense(RowAt(grid, keys[i]), LastColumn(grid)))
  }

  /** The cells of a row alone, in column order. */
  ghost function Packed(row: Row): seq<string> {
    var keys := SortedKeys(row.Keys);
    seq(|keys|, i requires 0 <= i < |keys| => CellAt(row, keys[i]))
  }

  /** The rows that hold a cell, the cells alone. */
  ghost function PackedRows(grid: Grid): seq<seq<string>> {
    var keys := SortedKeys(grid.Keys);
    seq(|keys|, i requires 0 <= i < |keys| => Packed(RowAt(grid, keys[i])))
  }

  ghost function LaidOut(grid: Grid): seq<seq<string>> {
    if LastColumn(grid) <= XLSX_ROW_GAP_PRESERVE_MAX_COLUMNS then
      if LastRow(grid) <= XLSX_ROW_GAP_PRESERVE_MAX_ROWS then DenseRows(grid) else WideRows(grid)
    else PackedRows(grid)
  }

  /** The first loop of `_xlsx_sheet_rows`. */
  method PositionCells(cells: seq<Cell>) returns (grid: Grid, fallback: seq<seq<string>>)
    ensures grid == Positioned(cells) && fallback == FallbackRows(cells)
  {
    grid, fallback := map[], [];
    for i := 0 to |cells|
      invariant grid == Positioned(cells[..i]) && fallback == FallbackRows(cells[..i])
    {
      assert cells[..i + 1][..i] == cells[..i];
      var cell := cells[i];
      if HasText(cell) {
        match Coordinates(cell.ref)
        case None => fallback := fallback + [[cell.value.value]];
        case Some(at) => grid := Put(grid, at, cell.value.value);
      }
    }
    assert cells[..|cells|] == cells;
  }

  /** `_xlsx_sheet_rows` */
  method SheetRows(cells: seq<Cell>) returns (rows: seq<seq<string>>)
    ensures rows == LaidOut(Positioned(cells)) + FallbackRows(cells)
  {
    hide SortedKeys, Ascending, Packed, Maximum;
    var grid, fallback := PositionCells(cells);
    if grid == map[] {
      NoRows();
      return fallback;
    }
    var lastColumn := MaximumOf(Occupied(grid));
    var lastRow := MaximumOf(grid.Keys);
    if lastColumn <= XLSX_ROW_GAP_PRESERVE_MAX_COLUMNS {
      if lastRow <= XLSX_ROW_GAP_PRESERVE_MAX_ROWS {
        rows := seq(lastRow, i requires 0 <= i < lastRow => Dense(RowAt(grid, i + 1), lastColumn));
      } else {
        var keys := Sorted(grid.Keys);
        rows := seq(|keys|, i requires 0 <= i < |keys| => Dense(RowAt(grid, keys[i]), lastColumn));
      }
    } else {
      rows := PackRows(grid);
    }
    rows := rows + fallback;
  }

  method PackRows(grid: Grid) returns (rows: seq<seq<string>>)
    ensures rows == PackedRows(grid)
  {
    hide SortedKeys, Ascending, Packed;
    var keys := Sorted(grid.Keys);
    rows := [];
    for i := 0 to |keys|
      invariant rows == PackedRows(grid)[..i]
    {
      var row := PackRow(RowAt(grid, keys[i]));
      rows := rows + [row];
    }
  }

  method PackRow(row: Row) returns (packed: seq<string>)
    ensures packed == Packed(row)
  {
    hide SortedKeys, Ascending;
    var columns := Sorted(row.Keys);
    packed := seq(|columns|, k requires 0 <= k < |columns| => CellAt(row, columns[k]));
  }

  lemma NoRows()
    ensures LaidOut(map[]) == []
  {
  }

  // ---- The three layouts hold the same content

  ghost function NonBlanks(row: seq<string>): seq<string> {
    if row == [] then []
    else NonBlanks(row[..|row| - 1]) + if row[|row| - 1] == "" then [] else [row[|row| - 1]]
  }

  /** A grid read row by row, skipping blank cells and blank rows. */
  ghost function Compact(rows: seq<seq<string>>): seq<seq<string>> {
    if rows == [] then []
    else Compact(rows[..|rows| - 1]) + if NonBlanks(rows[|rows| - 1]) == [] then [] else [NonBlanks(rows[|rows| - 1])]
  }

  lemma {:induction false} AllNonBlank(row: seq<string>)
    requires "" !in row
    ensures NonBlanks(row) == row
  {
    if row != [] {
      assert row == row[..|row| - 1] + [row[|row| - 1]];
      AllNonBlank(row[..|row| - 1]);
    }
  }

  lemma PackedHasNoBlanks(row: Row)
    requires forall c :: c in row ==> c > 0 && row[c] != ""
    ensures "" !in Packed(row) && |Packed(row)| == |row|
  {
    var keys := SortedKeys(row.Keys);
    forall i | 0 <= i < |keys| ensures Packed(row)[i] != "" {
      assert keys[i] in keys;
    }
  }

  /** The keys of `s` up to `n`, in order. */
  lemma {:induction false} SortedUpTo(s: set<nat>, n: nat)
    ensures n + 1 in s ==> SortedKeys(set x | x in s && x <= n + 1) == SortedKeys(set x | x in s && x <= n) + [n + 1]
    ensures n + 1 !in s ==> (set x | x in s && x <= n + 1) == (set x | x in s && x <= n)
  {
    if n + 1 in s {
      var a := SortedKeys(set x | x in s && x <= n);
      AscendingWith(a, n + 1);
      SortedIsUnique(SortedKeys(set x | x in s && x <= n + 1), a + [n + 1]);
    }
  }

  /** Skipping the blanks of a dense row leaves the packed row. */
  lemma {:induction false} DensePrefix(row: Row, width: nat)
    requires forall c :: c in row ==> c > 0 && row[c] != ""
    ensures NonBlanks(Dense(row, width)) == Packed(map c | c in row && c <= width :: row[c])
  {
    hide SortedKeys, Ascending, Packed;
    var part := map c | c in row && c <= width :: row[c];
    if width == 0 {
      assert part == map[];
      NothingPacked();
    } else {
      DensePrefix(row, width - 1);
      var less := map c | c in row && c <= width - 1 :: row[c];
      assert Dense(row, width)[..width - 1] == Dense(row, width - 1);
      SortedUpTo(row.Keys, width - 1);
      assert part.Keys == set x | x in row.Keys && x <= width;
      assert less.Keys == set x | x in row.Keys && x <= width - 1;
      if width in row {
        PackedStep(less, part, width);
      } else {
        assert part == less;
      }
    }
  }

  lemma NothingPacked()
    ensures Packed(map[]) == []
  {
  }

  lemma PackedStep(less: Row, more: Row, last: nat)
    requires last in more && SortedKeys(more.Keys) == SortedKeys(less.Keys) + [last]
    requires forall c :: c in less ==> c in more && more[c] == less[c]
    ensures Packed(more) == Packed(less) + [more[last]]
  {
    hide SortedKeys, Ascending;
    var keys := SortedKeys(less.Keys);
    forall i | 0 <= i < |keys| ensures Packed(more)[i] == Packed(less)[i] {
      assert keys[i] in keys;
      assert SortedKeys(more.Keys)[i] == keys[i];
    }
  }

  ghost predicate IsBlankRow(row: seq<string>) {
    forall cell :: cell in row ==> cell == ""
  }

  ghost function WithoutBlankRows(rows: seq<seq<string>>): seq<seq<string>> {
    if rows == [] then []
    else WithoutBlankRows(rows[..|rows| - 1]) + if IsBlankRow(rows[|rows| - 1]) then [] else [rows[|rows| - 1]]
  }

  ghost function RowsFor(grid: Grid, keys: seq<nat>, width: nat): seq<seq<string>> {
    seq(|keys|, i requires 0 <= i < |keys| => Dense(RowAt(grid, keys[i]), width))
  }

  ghost function RowsUpTo(grid: Grid, n: nat, width: nat): seq<seq<string>> {
    seq(n, i requires 0 <= i < n => Dense(RowAt(grid, i + 1), width))
  }

  lemma BlankDense(grid: Grid, r: nat, width: nat)
    requires IsFilled(grid) && forall c :: c in Occupied(grid) ==> c <= width
    ensures IsBlankRow(Dense(RowAt(grid, r), width)) <==> r !in grid
  {
    if r in grid {
      var c :| c in grid[r];
      assert c in Occupied(grid);
      assert Dense(RowAt(grid, r), width)[c - 1] == grid[r][c];
      assert Dense(RowAt(grid, r), width)[c - 1] in Dense(RowAt(grid, r), width);
    }
  }

  /** Dropping the blank rows of the dense layout leaves the rows that hold a cell. */
  lemma {:induction false} DenseWithoutBlanks(grid: Grid, n: nat, width: nat)
    requires IsFilled(grid) && forall c :: c in Occupied(grid) ==> c <= width
    ensures WithoutBlankRows(RowsUpTo(grid, n, width))
      == RowsFor(grid, SortedKeys(set x | x in grid.Keys && x <= n), width)
  {
    hide SortedKeys, Ascending, IsBlankRow, IsFilled, Occupied;
    if n == 0 {
      NoneBelowOne(grid, n);
      assert RowsUpTo(grid, 0, width) == [];
      assert RowsFor(grid, [], width) == [];
    } else {
      DenseWithoutBlanks(grid, n - 1, width);
      assert RowsUpTo(grid, n, width)[..n - 1] == RowsUpTo(grid, n - 1, width);
      SortedUpTo(grid.Keys, n - 1);
      BlankDense(grid, n, width);
      RowsForStep(grid, SortedKeys(set x | x in grid.Keys && x <= n - 1), n, width);
      var kept := WithoutBlankRows(RowsUpTo(grid, n - 1, width));
      assert kept + [] == kept;
    }
  }

  lemma NoneBelowOne(grid: Grid, n: nat)
    requires IsFilled(grid) && n == 0
    ensures SortedKeys(set x | x in grid.Keys && x <= n) == []
  {
    assert (set x | x in grid.Keys && x <= n) == {};
  }

  lemma RowsForStep(grid: Grid, keys: seq<nat>, last: nat, width: nat)
    ensures RowsFor(grid, keys + [last], width) == RowsFor(grid, keys, width) + [Dense(RowAt(grid, last), width)]
  {
  }

  lemma DenseRowsWithoutBlanks(grid: Grid)
    requires IsFilled(grid)
    ensures WithoutBlankRows(DenseRows(grid)) == WideRows(grid)
  {
    DenseWithoutBlanks(grid, LastRow(grid), LastColumn(grid));
    assert (set x | x in grid.Keys && x <= LastRow(grid)) == grid.Keys;
    assert DenseRows(grid) == RowsUpTo(grid, LastRow(grid), LastColumn(grid));
    assert WideRows(grid) == RowsFor(grid, SortedKeys(grid.Keys), LastColumn(grid));
  }

  lemma {:induction false} NonBlanksOfBlank(row: seq<string>)
    ensures NonBlanks(row) == [] <==> IsBlankRow(row)
  {
    if row != [] {
      var init, last := row[..|row| - 1], row[|row| - 1];
      NonBlanksOfBlank(init);
      assert row == init + [last];
      assert IsBlankRow(row) <==> IsBlankRow(init) && last == "" by {
        assert last in row;
        assert forall cell :: cell in init ==> cell in row;
      }
      if last == "" {
        assert NonBlanks(row) == NonBlanks(init) + [];
      } else {
        assert |NonBlanks(row)| == |NonBlanks(init)| + 1;
      }
    }
  }

  lemma {:induction false} CompactIgnoresBlanks(rows: seq<seq<string>>)
    ensures Compact(WithoutBlankRows(rows)) == Compact(rows)
  {
    if rows != [] {
      CompactIgnoresBlanks(rows[..|rows| - 1]);
      NonBlanksOfBlank(rows[|rows| - 1]);
      var kept := WithoutBlankRows(rows[..|rows| - 1]);
      assert (kept + [rows[|rows| - 1]])[..|kept|] == kept;
      assert kept + [] == kept;
    }
  }

  lemma {:induction false} CompactEach(rows: seq<seq<string>>, packed: seq<seq<string>>)
    requires |rows| == |packed| && forall i :: 0 <= i < |rows| ==> NonBlanks(rows[i]) == packed[i] && packed[i] != []
    ensures Compact(rows) == packed
  {
    hide NonBlanks;
    if rows != [] {
      CompactEach(rows[..|rows| - 1], packed[..|rows| - 1]);
    }
  }

  lemma PackedRow(grid: Grid, r: nat)
    requires IsFilled(grid) && r in grid
    ensures NonBlanks(Dense(RowAt(grid, r), LastColumn(grid))) == Packed(RowAt(grid, r))
    ensures NonBlanks(Packed(RowAt(grid, r))) == Packed(RowAt(grid, r)) != []
    ensures |Packed(RowAt(grid, r))| == |grid[r]|
  {
    hide SortedKeys, Ascending;
    DensePrefix(grid[r], LastColumn(grid));
    forall c | c in grid[r] ensures c <= LastColumn(grid) {
      assert c in Occupied(grid);
    }
    assert (map c | c in grid[r] && c <= LastColumn(grid) :: grid[r][c]) == grid[r];
    PackedHasNoBlanks(grid[r]);
    AllNonBlank(Packed(grid[r]));
    assert |grid[r]| > 0;
  }

  lemma RowsConserve(grid: Grid)
    requires IsFilled(grid)
    ensures Compact(WideRows(grid)) == PackedRows(grid) && Compact(PackedRows(grid)) == PackedRows(grid)
  {
    hide SortedKeys, Ascending, Packed, IsFilled, NonBlanks, Compact;
    var keys := SortedKeys(grid.Keys);
    forall i | 0 <= i < |keys|
      ensures NonBlanks(WideRows(grid)[i]) == PackedRows(grid)[i] && PackedRows(grid)[i] != []
      ensures NonBlanks(PackedRows(grid)[i]) == PackedRows(grid)[i]
    {
      assert keys[i] in keys;
      PackedRow(grid, keys[i]);
    }
    CompactEach(WideRows(grid), PackedRows(grid));
    CompactEach(PackedRows(grid), PackedRows(grid));
  }

  /** Whatever the layout, read without its blanks it is the positioned cells, row by row and
      column by column: nothing is lost, repeated or moved. */
  lemma LayoutsConserve(grid: Grid)
    requires IsFilled(grid)
    ensures Compact(LaidOut(grid)) == PackedRows(grid)
  {
    hide SortedKeys, Ascending, Packed, IsFilled, WideRows, PackedRows, DenseRows, Compact;
    RowsConserve(grid);
    DenseRowsWithoutBlanks(grid);
    CompactIgnoresBlanks(DenseRows(grid));
  }

  /** In the dense layout every cell stands in its own row and column. */
  lemma DensePlacement(grid: Grid, r: nat, c: nat)
    requires IsFilled(grid) && r in grid && c in grid[r]
    ensures 0 < r <= |DenseRows(grid)| && 0 < c <= |DenseRows(grid)[r - 1]|
    ensures DenseRows(grid)[r - 1][c - 1] == grid[r][c]
  {
    assert c in Occupied(grid);
  }

  // ---- The size of the output

  ghost function Size(rows: seq<seq<string>>): nat {
    if rows == [] then 0 else Size(rows[..|rows| - 1]) + |rows[|rows| - 1]|
  }

  lemma {:induction false} SizeOfEqualRows(rows: seq<seq<string>>, width: nat)
    requires forall i :: 0 <= i < |rows| ==> |rows[i]| == width
    ensures Size(rows) == |rows| * width
  {
    if rows != [] { SizeOfEqualRows(rows[..|rows| - 1], width); }
  }

  lemma {:induction false} RowsAtMostCells(rows: seq<seq<string>>)
    requires forall i :: 0 <= i < |rows| ==> rows[i] != []
    ensures |rows| <= Size(rows)
  {
    if rows != [] { RowsAtMostCells(rows[..|rows| - 1]); }
  }

  lemma AtMost(a: nat, b: nat, x: nat, y: nat)
    requires a <= x && b <= y
    ensures a * b <= x * y
  {
    assert a * b <= a * y;
    assert a * y <= x * y;
  }

  /** The layouts never blow up: at most 1024 rows of 256 columns, or 256 columns for each
      positioned cell. */
  lemma LayoutSize(grid: Grid)
    requires IsFilled(grid)
    ensures Size(LaidOut(grid)) <= 1024 * 256 || Size(LaidOut(grid)) <= 256 * Size(PackedRows(grid))
  {
    hide SortedKeys, Ascending, Packed, IsFilled;
    SizeOfEqualRows(DenseRows(grid), LastColumn(grid));
    SizeOfEqualRows(WideRows(grid), LastColumn(grid));
    var keys := SortedKeys(grid.Keys);
    forall i | 0 <= i < |keys| ensures PackedRows(grid)[i] != [] {
      assert keys[i] in keys;
      PackedRow(grid, keys[i]);
    }
    RowsAtMostCells(PackedRows(grid));
    if LastColumn(grid) <= 256 {
      AtMost(LastRow(grid), LastColumn(grid), if LastRow(grid) <= 1024 then 1024 else LastRow(grid), 256);
      AtMost(|keys|, LastColumn(grid), Size(PackedRows(grid)), 256);
    }
  }

  // ---- What is positioned

  ghost predicate WrittenAt(cells: seq<Cell>, i: int, at: Position, text: string) {
    0 <= i < |cells| && HasText(cells[i]) && Coordinates(cells[i].ref) == Some(at) && cells[i].value.value == text
  }

  ghost predicate NotWrittenAfter(cells: seq<Cell>, i: int, at: Position)
    requires 0 <= i < |cells|
  {
    forall j :: i < j < |cells| && HasText(cells[j]) ==> Coordinates(cells[j].ref) != Some(at)
  }

  ghost predicate Holds(grid: Grid, at: Position, text: string) {
    at.row in grid && at.column in grid[at.row] && grid[at.row][at.column] == text
  }

  /** Whatever a position holds was the last text written to it. */
  lemma {:induction false} WhoWrote(cells: seq<Cell>, at: Position, text: string) returns (i: nat)
    requires Holds(Positioned(cells), at, text)
    ensures WrittenAt(cells, i, at, text) && NotWrittenAfter(cells, i, at)
  {
    hide Coordinates;
    var init, last := cells[..|cells| - 1], cells[|cells| - 1];
    if HasText(last) && Coordinates(last.ref) == Some(at) {
      i := |cells| - 1;
    } else {
      i := WhoWrote(init, at, text);
      forall j | i < j < |cells| && HasText(cells[j]) ensures Coordinates(cells[j].ref) != Some(at) {
        if j < |init| { assert init[j] == cells[j]; }
      }
    }
  }

  /** The last text written to a position stays there. */
  lemma {:induction false} LastWrittenStands(cells: seq<Cell>, i: nat, at: Position, text: string)
    requires WrittenAt(cells, i, at, text) && NotWrittenAfter(cells, i, at)
    ensures Holds(Positioned(cells), at, text)
  {
    hide Coordinates;
    if i < |cells| - 1 {
      LastWrittenStands(cells[..|cells| - 1], i, at, text);
    }
  }
}
