/** The text printed for a sheet (core/ir/document_ir_v1.py) and the grid read back from such a
    text (core/ir/template_fingerprint.py, `_xlsx_cell_rows`). */
module XlsxText {
  import opened Prelude
  import opened PythonText
  import opened Decimals
  import opened Sorting
  import opened ColumnCode
  import opened XlsxGrid
  import opened XlsxSheet

  // ---- Printing

  ghost function CellLine(cell: Cell): string
    requires HasText(cell)
  {
    if Coordinates(cell.ref).None? then "Unreferenced cell: " + cell.value.value else cell.ref + ": " + cell.value.value
  }

  /** `_xlsx_sheet_cell_reference_lines` */
  ghost function ReferenceLines(cells: seq<Cell>): seq<string> {
    if cells == [] then []
    else
      ReferenceLines(cells[..|cells| - 1]) + if HasText(cells[|cells| - 1]) then [CellLine(cells[|cells| - 1])] else []
  }

  method PrintReferenceLines(cells: seq<Cell>) returns (lines: seq<string>)
    ensures lines == ReferenceLines(cells)
  {
    lines := [];
    for i := 0 to |cells|
      invariant lines == ReferenceLines(cells[..i])
    {
      assert cells[..i + 1][..i] == cells[..i];
      if HasText(cells[i]) {
        var value := cells[i].value.value;
        if Coordinates(cells[i].ref) == None {
          lines := lines + ["Unreferenced cell: " + value];
        } else {
          lines := lines + [cells[i].ref + ": " + value];
        }
      }
    }
    assert cells[..|cells|] == cells;
  }

  function Label(name: string): string {
    "Sheet: " + name
  }

  /** The text of `_xlsx_sheet_page`; none of its lines is empty. */
  ghost function SheetText(name: string, cells: seq<Cell>): string {
    Join("\n", [Label(name)] + ReferenceLines(cells))
  }

  lemma {:induction false} NoLineIsEmpty(cells: seq<Cell>)
    ensures forall i :: 0 <= i < |ReferenceLines(cells)| ==> ReferenceLines(cells)[i] != ""
  {
    hide Coordinates;
    if cells != [] {
      NoLineIsEmpty(cells[..|cells| - 1]);
    }
  }

  /** The text of `_xlsx_sheet_page`: the label and the reference lines, empty lines left out. */
  method PrintSheet(name: string, cells: seq<Cell>) returns (text: string)
    ensures text == SheetText(name, cells)
  {
    hide CellLine, Join;
    var lines := PrintReferenceLines(cells);
    lines := ["Sheet: " + name] + lines;
    NoLineIsEmpty(cells);
    var kept: seq<string> := [];
    for i := 0 to |lines|
      invariant kept == lines[..i]
    {
      if lines[i] != "" {
        kept := kept + [lines[i]];
      }
    }
    assert kept == [Label(name)] + ReferenceLines(cells);
    text := Join("\n", kept);
  }

  // ---- Reading

  /** `_normalized_column_name(text) != ""` */
  predicate HasName(text: string) {
    exists i :: 0 <= i < |text| && !IsSpace(text[i]) && text[i] != '_' && text[i] != '-'
  }

  /** Nothing is left of a name without letters once its dashes and underscores are spaces. */
  lemma NameMeans(text: string)
    ensures HasName(text) <==>
      !IsBlank(seq(|text|, i requires 0 <= i < |text| => if text[i] in {'_', '-'} then ' ' else text[i]))
  {
    hide IsBlank;
    var spaced := seq(|text|, i requires 0 <= i < |text| => if text[i] in {'_', '-'} then ' ' else text[i]);
    BlankMeans(spaced);
    if HasName(text) {
      var i :| 0 <= i < |text| && !IsSpace(text[i]) && text[i] != '_' && text[i] != '-';
      assert !IsSpace(spaced[i]);
    }
  }

  lemma BlankMeans(s: string)
    ensures IsBlank(s) <==> forall i :: 0 <= i < |s| ==> IsSpace(s[i])
  {
  }

  /** `_is_xlsx_sheet_label_line`, for a text without newline */
  ghost predicate IsLabel(line: string) {
    var s := Strip(line);
    "Sheet:" <= s && |s| >= 8 && IsSpace(s[6])
  }

  /** `_xlsx_cell_line`, for a text without newline */
  function ReadCell(line: string): Option<(Position, string)> {
    match ReferenceAt(line)
    case None => None
    case Some((letters, digits)) =>
      var n := letters + digits;
      if n < |line| && line[n] == ':' then
        var value := line[n + 1..];
        Some((PositionOf(line[..letters], line[letters..n]), if value != "" && value[0] == ' ' then value[1..] else value))
      else None
  }

  /** The line is a reference, a colon and a rest, of which one space is dropped. */
  ghost predicate IsCellLine(line: string, ref: string, rest: string, at: Position, value: string) {
    && line == ref + ":" + rest && Coordinates(ref) == Some(at)
    && value == if " " <= rest then rest[1..] else rest
  }

  lemma CellLineMeans(line: string, at: Position, value: string)
    ensures ReadCell(line) == Some((at, value)) <==> exists ref, rest :: IsCellLine(line, ref, rest, at, value)
  {
    hide ReadCell, IsCellLine;
    if ReadCell(line) == Some((at, value)) {
      var ref, rest := ReadIsCellLine(line, at, value);
    }
    if ref, rest :| IsCellLine(line, ref, rest, at, value) {
      CellLineIsRead(line, ref, rest, at, value);
    }
  }

  lemma ReadIsCellLine(line: string, at: Position, value: string) returns (ref: string, rest: string)
    requires ReadCell(line) == Some((at, value))
    ensures IsCellLine(line, ref, rest, at, value)
  {
    hide PositionOf, LetterRun, DigitRun, Coordinates;
    var (letters, digits) := ReferenceAt(line).value;
    var n := letters + digits;
    ref, rest := line[..n], line[n + 1..];
    assert ref[..letters] == line[..letters] && ref[letters..] == line[letters..n];
    FrontIsReference(line);
    assert line == ref + ":" + rest;
  }

  lemma FrontIsReference(line: string)
    requires ReferenceAt(line).Some?
    ensures var (letters, digits) := ReferenceAt(line).value;
      Coordinates(line[..letters + digits]) == Some(PositionOf(line[..letters], line[letters..letters + digits]))
  {
    hide PositionOf;
    var (letters, digits) := ReferenceAt(line).value;
    var ref := line[..letters + digits];
    RunsAre(line[..letters], line[letters..letters + digits]);
    assert ref == line[..letters] + line[letters..letters + digits];
    assert ref[..letters] == line[..letters] && ref[letters..] == line[letters..letters + digits];
  }

  lemma CellLineIsRead(line: string, ref: string, rest: string, at: Position, value: string)
    requires IsCellLine(line, ref, rest, at, value)
    ensures ReadCell(line) == Some((at, value))
  {
    hide PositionOf, ReferenceAt, Coordinates;
    ReferenceInFront(ref, ":" + rest);
    CoordinatesAreReference(ref);
    assert line == ref + (":" + rest);
    var (letters, digits) := ReferenceAt(ref).value;
    var n := letters + digits;
    assert line[n] == ':' && line[n + 1..] == rest && line[..letters] == ref[..letters]
      && line[letters..n] == ref[letters..];
  }

  /** What the reader knows after some lines; `None` once it has given up. */
  datatype Reading = Reading(grid: Grid, sawReference: bool, last: Option<Position>)

  ghost function ReadLine(r: Option<Reading>, line: string): Option<Reading> {
    if r.None? then None
    else
      match ReadCell(line)
      case None =>
        if !r.value.sawReference && IsLabel(line) then r
        else if r.value.last.None? then None
        else
          var at := r.value.last.value;
          Some(r.value.(grid := Put(r.value.grid, at, CellAt(RowAt(r.value.grid, at.row), at.column) + "\n" + line)))
      case Some((at, text)) =>
        if !HasName(text) then Some(Reading(r.value.grid, true, None))
        else Some(Reading(Put(r.value.grid, at, text), true, Some(at)))
  }

  const START := Some(Reading(map[], false, None))

  ghost function ReadLines(lines: seq<string>): Option<Reading> {
    if lines == [] then START else ReadLine(ReadLines(lines[..|lines| - 1]), lines[|lines| - 1])
  }

  ghost function NonBlankLines(lines: seq<string>): seq<string> {
    if lines == [] then []
    else NonBlankLines(lines[..|lines| - 1]) + if IsBlank(lines[|lines| - 1]) then [] else [lines[|lines| - 1]]
  }

  ghost predicate HasNamedCell(row: Row) {
    exists c :: c in row && HasName(row[c])
  }

  ghost function NamedRows(grid: Grid, keys: seq<nat>, width: nat): seq<seq<string>> {
    if keys == [] then []
    else
      var before, last := NamedRows(grid, keys[..|keys| - 1], width), RowAt(grid, keys[|keys| - 1]);
      if HasNamedCell(last) then before + [Dense(last, width)] else before
  }

  ghost function ReadRows(text: string): seq<seq<string>> {
    var r := ReadLines(NonBlankLines(SplitLines(text)));
    if r.None? || !r.value.sawReference then []
    else NamedRows(r.value.grid, SortedKeys(r.value.grid.Keys), LastColumn(r.value.grid))
  }

  /** `_is_xlsx_sheet_label_line`: `Sheet:`, white space and something after it. */
  method IsSheetLabelLine(line: string) returns (isLabel: bool)
    ensures isLabel == IsLabel(line)
  {
    var text := Strip(line);
    if |text| < 8 {
      return false;
    }
    isLabel := text[..6] == "Sheet:" && IsSpace(text[6]);
  }

  /** The lines of the text that are not blank. */
  method TextLines(text: string) returns (lines: seq<string>)
    ensures lines == NonBlankLines(SplitLines(text))
  {
    hide IsBlank, SplitLines;
    var all := SplitLines(text);
    lines := [];
    for i := 0 to |all|
      invariant lines == NonBlankLines(all[..i])
    {
      assert all[..i + 1][..i] == all[..i];
      if !IsBlank(all[i]) {
        lines := lines + [all[i]];
      }
    }
    assert all[..|all|] == all;
  }

  /** The first loop of `_xlsx_cell_rows`: a grid, unless the text is given up, and whether any line
      refers to a cell. */
  method ReadGrid(lines: seq<string>) returns (read: Option<Grid>, sawReference: bool)
    ensures read.None? <==> ReadLines(lines).None?
    ensures read.Some? ==> ReadLines(lines).value.grid == read.value && ReadLines(lines).value.sawReference == sawReference
  {
    hide IsLabel, ReadCell, HasName;
    var grid: Grid := map[];
    var last: Option<Position> := None;
    sawReference := false;
    for i := 0 to |lines|
      invariant ReadLines(lines[..i]) == Some(Reading(grid, sawReference, last))
    {
      assert lines[..i + 1][..i] == lines[..i];
      var cell := ReadCell(lines[i]);
      if cell == None {
        var isLabel := IsSheetLabelLine(lines[i]);
        if !sawReference && isLabel {
          continue;
        }
        if last == None {
          GivenUp(lines, i + 1);
          return None, sawReference;
        }
        var before := CellAt(RowAt(grid, last.value.row), last.value.column);
        grid := Put(grid, last.value, before + "\n" + lines[i]);
        continue;
      }
      sawReference := true;
      var (at, text) := cell.value;
      if !HasName(text) {
        last := None;
        continue;
      }
      grid := Put(grid, at, text);
      last := Some(at);
    }
    assert lines[..|lines|] == lines;
    read := Some(grid);
  }

  /** `_xlsx_cell_rows` */
  method XlsxCellRows(text: string) returns (rows: seq<seq<string>>)
    ensures rows == ReadRows(text)
  {
    hide SortedKeys, Maximum, Ascending, ReadLines, SplitLines, NonBlankLines, Occupied, HasName;
    var lines := TextLines(text);
    var read, sawReference := ReadGrid(lines);
    if read == None || !sawReference {
      return [];
    }
    var grid := read.value;
    var width := MaximumOf(Occupied(grid));
    var keys := Sorted(grid.Keys);
    rows := [];
    for i := 0 to |keys|
      invariant rows == NamedRows(grid, keys[..i], width)
    {
      assert keys[..i + 1][..i] == keys[..i];
      var row := RowAt(grid, keys[i]);
      if exists c :: c in row && HasName(row[c]) {
        rows := rows + [Dense(row, width)];
      }
    }
    assert keys[..|keys|] == keys;
  }

  lemma {:induction false} GivenUp(lines: seq<string>, n: nat)
    requires n <= |lines| && ReadLines(lines[..n]).None?
    ensures ReadLines(lines).None?
  {
    if n < |lines| {
      assert lines[..|lines| - 1][..n] == lines[..n];
      GivenUp(lines[..|lines| - 1], n);
    } else {
      assert lines[..n] == lines;
    }
  }

  // ---- The round trip

  /** Sheets whose text can be read back: every text stands in a referenced cell, on one line,
      and is more than punctuation; the name is one line and not blank. */
  ghost predicate Printable(name: string, cells: seq<Cell>) {
    && OneLine(name) && !IsBlank(name)
    && forall i :: 0 <= i < |cells| && HasText(cells[i]) ==>
         Coordinates(cells[i].ref).Some? && OneLine(cells[i].value.value) && HasName(cells[i].value.value)
  }

  lemma ReadPrintedCell(cell: Cell)
    requires HasText(cell) && Coordinates(cell.ref).Some?
    ensures ReadCell(CellLine(cell)) == Some((Coordinates(cell.ref).value, cell.value.value))
  {
    hide ReferenceAt, LetterRun, DigitRun, PositionOf, Coordinates;
    var text := cell.value.value;
    RestOfLine(cell.ref, text);
    CoordinatesAreReference(cell.ref);
    var (letters, digits) := ReferenceAt(cell.ref).value;
    ReferenceInFront(cell.ref, ": " + text);
    assert CellLine(cell) == cell.ref + (": " + text);
  }

  lemma CoordinatesAreReference(ref: string)
    requires Coordinates(ref).Some?
    ensures ReferenceAt(ref).Some?
    ensures var (letters, digits) := ReferenceAt(ref).value;
      letters + digits == |ref| && Coordinates(ref) == Some(PositionOf(ref[..letters], ref[letters..]))
  {
    hide PositionOf;
  }

  lemma RestOfLine(ref: string, text: string)
    ensures var line := ref + (": " + text);
      line[|ref|] == ':' && line[|ref| + 1..] == " " + text && (" " + text)[1..] == text
        && forall n :: 0 <= n <= |ref| ==> line[..n] == ref[..n] && line[n..|ref|] == ref[n..]
  {
  }

  lemma {:induction false} OneLineParts(a: string, b: string)
    requires OneLine(a) && OneLine(b)
    ensures OneLine(a + b)
  {
  }

  lemma ReferenceIsOneLine(ref: string)
    requires Coordinates(ref).Some?
    ensures OneLine(ref) && ref != "" && !IsSpace(ref[0])
  {
    var letters := LetterRun(ref);
    forall i | 0 <= i < |ref| ensures !IsLineBreak(ref[i]) {
      if i >= letters {
        assert ref[letters..][i - letters] == ref[i];
      }
    }
  }

  lemma PrintedCellLine(cell: Cell)
    requires HasText(cell) && Coordinates(cell.ref).Some? && OneLine(cell.value.value)
    ensures CellLine(cell) != "" && OneLine(CellLine(cell)) && !IsBlank(CellLine(cell))
  {
    hide Coordinates;
    ReferenceIsOneLine(cell.ref);
    OneLineParts(cell.ref, ": ");
    OneLineParts(cell.ref + ": ", cell.value.value);
    assert CellLine(cell)[0] == cell.ref[0];
    assert CellLine(cell)[0] in CellLine(cell);
  }

  lemma {:induction false} StripRightKeeps(front: string, s: string)
    requires !IsBlank(s)
    ensures StripRight(front + s) == front + StripRight(s) && StripRight(s) != ""
  {
    var last := s[|s| - 1];
    if IsSpace(last) {
      var init := s[..|s| - 1];
      assert s == init + [last];
      assert (front + s)[..|front + s| - 1] == front + init;
      StripRightKeeps(front, init);
    }
  }

  lemma LabelIsLabel(name: string)
    requires OneLine(name) && !IsBlank(name)
    ensures IsLabel(Label(name)) && ReadCell(Label(name)).None?
    ensures Label(name) != "" && OneLine(Label(name)) && !IsBlank(Label(name))
  {
    var line := Label(name);
    OneLineParts("Sheet: ", name);
    assert line[0] == 'S' && line[0] in line;
    StripRightKeeps("Sheet: ", name);
    var s := Strip(line);
    assert s == "Sheet: " + StripRight(name);
    assert line[..5] == "Sheet" && line[5] == ':';
    LabelHasNoReference(line);
  }

  lemma LabelHasNoReference(line: string)
    requires |line| > 5 && line[..5] == "Sheet" && line[5] == ':'
    ensures ReadCell(line).None?
  {
    assert line[0] == 'S' && line[1] == 'h' && line[2] == 'e' && line[3] == 'e' && line[4] == 't' by {
      assert line[..5][0] == 'S' && line[..5][1] == 'h' && line[..5][2] == 'e' && line[..5][3] == 'e'
        && line[..5][4] == 't';
    }
    assert LetterRun(line) == 5;
  }

  lemma {:induction false} PrintedLines(cells: seq<Cell>)
    requires forall i :: 0 <= i < |cells| && HasText(cells[i]) ==>
      Coordinates(cells[i].ref).Some? && OneLine(cells[i].value.value)
    ensures forall i :: 0 <= i < |ReferenceLines(cells)| ==>
      ReferenceLines(cells)[i] != "" && OneLine(ReferenceLines(cells)[i]) && !IsBlank(ReferenceLines(cells)[i])
  {
    if cells != [] {
      PrintedLines(cells[..|cells| - 1]);
      if HasText(cells[|cells| - 1]) {
        PrintedCellLine(cells[|cells| - 1]);
      }
    }
  }

  lemma {:induction false} NoBlankLines(lines: seq<string>)
    requires forall i :: 0 <= i < |lines| ==> !IsBlank(lines[i])
    ensures NonBlankLines(lines) == lines
  {
    if lines != [] {
      NoBlankLines(lines[..|lines| - 1]);
      assert lines == lines[..|lines| - 1] + [lines[|lines| - 1]];
    }
  }

  /** Reading the printed lines puts every text where the grid of the sheet has it. */
  lemma {:induction false} PrintedIsRead(name: string, cells: seq<Cell>)
    requires Printable(name, cells)
    ensures ReadLines([Label(name)] + ReferenceLines(cells)).Some?
    ensures ReadLines([Label(name)] + ReferenceLines(cells)).value.grid == Positioned(cells)
    ensures ReadLines([Label(name)] + ReferenceLines(cells)).value.sawReference <==> ReferenceLines(cells) != []
    ensures ReferenceLines(cells) == [] ==> Positioned(cells) == map[]
  {
    hide Coordinates, HasName, OneLine, IsBlank, IsLabel, ReadCell, CellLine, IsFilled;
    var lines := [Label(name)] + ReferenceLines(cells);
    if cells == [] {
      LabelIsLabel(name);
      assert lines == [Label(name)];
      assert ReadLines(lines) == ReadLine(ReadLines([]), Label(name));
    } else {
      var init, last := cells[..|cells| - 1], cells[|cells| - 1];
      PrintedIsRead(name, init);
      if HasText(last) {
        ReadPrintedCell(last);
        assert lines[..|lines| - 1] == [Label(name)] + ReferenceLines(init);
      } else {
        assert lines == [Label(name)] + ReferenceLines(init);
      }
    }
  }

  ghost predicate AllNamed(grid: Grid) {
    forall r :: r in grid ==> HasNamedCell(grid[r])
  }

  lemma {:induction false} PositionedAreNamed(cells: seq<Cell>)
    requires forall i :: 0 <= i < |cells| && HasText(cells[i]) ==> HasName(cells[i].value.value)
    ensures AllNamedCells(Positioned(cells))
  {
    hide HasName, Coordinates;
    if cells != [] {
      PositionedAreNamed(cells[..|cells| - 1]);
    }
  }

  ghost predicate AllNamedCells(grid: Grid) {
    forall r, c :: r in grid && c in grid[r] ==> HasName(grid[r][c])
  }

  lemma EveryRowIsNamed(grid: Grid)
    requires IsFilled(grid) && AllNamedCells(grid)
    ensures AllNamed(grid)
  {
    hide HasName;
    forall r | r in grid ensures HasNamedCell(grid[r]) {
      var c :| c in grid[r];
      assert HasName(grid[r][c]);
    }
  }

  lemma {:induction false} NamedRowsAreRows(grid: Grid, keys: seq<nat>, width: nat)
    requires AllNamed(grid) && forall i :: 0 <= i < |keys| ==> keys[i] in grid
    ensures NamedRows(grid, keys, width) == RowsFor(grid, keys, width)
  {
    hide HasNamedCell;
    if keys != [] {
      var init, last := keys[..|keys| - 1], keys[|keys| - 1];
      NamedRowsAreRows(grid, init, width);
      RowsForStep(grid, init, last, width);
      assert keys == init + [last];
    }
  }

  /** The text of a printable sheet reads back as the rows that hold a cell. */
  lemma PrintedSheetIsRead(name: string, cells: seq<Cell>)
    requires Printable(name, cells)
    ensures ReadRows(SheetText(name, cells)) == WideRows(Positioned(cells))
  {
    hide SortedKeys, Ascending, Positioned, HasName, Coordinates, OneLine, IsBlank, IsLineBreak, IsSpace;
    var lines, grid := [Label(name)] + ReferenceLines(cells), Positioned(cells);
    LabelIsLabel(name);
    PrintedLines(cells);
    SplitJoined(lines);
    NoBlankLines(lines);
    PrintedIsRead(name, cells);
    var keys := SortedKeys(grid.Keys);
    assert WideRows(grid) == RowsFor(grid, keys, LastColumn(grid));
    if ReferenceLines(cells) != [] {
      PositionedAreNamed(cells);
      EveryRowIsNamed(grid);
      forall i | 0 <= i < |keys| ensures keys[i] in grid {
        assert keys[i] in keys;
      }
      NamedRowsAreRows(grid, keys, LastColumn(grid));
    }
  }

  lemma {:induction false} NothingFallsBack(cells: seq<Cell>)
    requires forall i :: 0 <= i < |cells| && HasText(cells[i]) ==> Coordinates(cells[i].ref).Some?
    ensures FallbackRows(cells) == []
  {
    hide Coordinates;
    if cells != [] {
      NothingFallsBack(cells[..|cells| - 1]);
    }
  }

  lemma {:induction false} NoBlankRows(rows: seq<seq<string>>)
    requires forall i :: 0 <= i < |rows| ==> !IsBlankRow(rows[i])
    ensures WithoutBlankRows(rows) == rows
  {
    hide IsBlankRow;
    if rows != [] {
      NoBlankRows(rows[..|rows| - 1]);
      assert rows == rows[..|rows| - 1] + [rows[|rows| - 1]];
    }
  }

  lemma {:induction false} NonBlanksKeepLength(row: seq<string>)
    ensures |NonBlanks(row)| <= |row|
    ensures |NonBlanks(row)| == |row| ==> NonBlanks(row) == row
  {
    if row != [] {
      NonBlanksKeepLength(row[..|row| - 1]);
      assert row == row[..|row| - 1] + [row[|row| - 1]];
    }
  }

  /** Every row has a cell in every column up to the last. */
  ghost predicate IsFull(grid: Grid) {
    forall r :: r in grid ==> |grid[r]| == LastColumn(grid)
  }

  lemma PackedEqualsWide(grid: Grid)
    requires IsFilled(grid)
    ensures PackedRows(grid) == WideRows(grid) <==> IsFull(grid)
    ensures WithoutBlankRows(PackedRows(grid)) == PackedRows(grid)
  {
    hide SortedKeys, Ascending, Packed, IsFilled, Maximum, NonBlanks, IsBlankRow, WithoutBlankRows, Occupied;
    var keys := SortedKeys(grid.Keys);
    forall i | 0 <= i < |keys|
      ensures PackedRows(grid)[i] == WideRows(grid)[i] <==> |grid[keys[i]]| == LastColumn(grid)
      ensures keys[i] in grid && !IsBlankRow(PackedRows(grid)[i])
    {
      assert keys[i] in keys;
      PackedRow(grid, keys[i]);
      NonBlanksKeepLength(WideRows(grid)[i]);
      NonBlanksOfBlank(PackedRows(grid)[i]);
    }
    NoBlankRows(PackedRows(grid));
    if PackedRows(grid) == WideRows(grid) {
      forall r | r in grid ensures |grid[r]| == LastColumn(grid) {
        assert r in keys;
        var i :| 0 <= i < |keys| && keys[i] == r;
        assert PackedRows(grid)[i] == WideRows(grid)[i];
      }
    }
  }

  lemma WideHasNoBlankRows(grid: Grid)
    requires IsFilled(grid)
    ensures WithoutBlankRows(WideRows(grid)) == WideRows(grid)
  {
    hide SortedKeys, Ascending, IsFilled, IsBlankRow;
    var keys := SortedKeys(grid.Keys);
    forall i | 0 <= i < |keys| ensures !IsBlankRow(WideRows(grid)[i]) {
      assert keys[i] in keys;
      BlankDense(grid, keys[i], LastColumn(grid));
    }
    NoBlankRows(WideRows(grid));
  }

  /** The rows kept for a printable sheet and the rows read back from its text are the same,
      blank rows apart, exactly when the sheet is at most 256 columns wide or has no gaps. */
  lemma RoundTrip(name: string, cells: seq<Cell>)
    requires Printable(name, cells)
    ensures ReadRows(SheetText(name, cells)) == WithoutBlankRows(LaidOut(Positioned(cells)) + FallbackRows(cells))
      <==> LastColumn(Positioned(cells)) <= XLSX_ROW_GAP_PRESERVE_MAX_COLUMNS || IsFull(Positioned(cells))
  {
    hide SortedKeys, Ascending, Packed, Positioned, HasName, Coordinates, Maximum, ReadRows, SheetText, OneLine,
      IsBlank, DenseRows, WideRows, PackedRows, IsFilled;
    var grid := Positioned(cells);
    PrintedSheetIsRead(name, cells);
    NothingFallsBack(cells);
    assert LaidOut(grid) + [] == LaidOut(grid);
    PackedEqualsWide(grid);
    DenseRowsWithoutBlanks(grid);
    WideHasNoBlankRows(grid);
  }

  /** However wide the sheet, both views hold the same texts in the same rows, in column order. */
  lemma SameContent(name: string, cells: seq<Cell>)
    requires Printable(name, cells)
    ensures Compact(ReadRows(SheetText(name, cells))) == Compact(LaidOut(Positioned(cells)) + FallbackRows(cells))
  {
    hide SortedKeys, Ascending, Packed, Positioned, HasName, Coordinates, Maximum, ReadRows, SheetText, OneLine,
      IsBlank, LaidOut, DenseRows, WideRows, PackedRows, IsFilled;
    var grid := Positioned(cells);
    PrintedSheetIsRead(name, cells);
    NothingFallsBack(cells);
    assert LaidOut(grid) + [] == LaidOut(grid);
    LayoutsConserve(grid);
    RowsConserve(grid);
  }

  // ---- A sheet too wide for the round trip

  const IN_COLUMN_257 := Cell("IW1", Some("x"))

  lemma WhereIW1Is()
    ensures Coordinates("IW1") == Some(Position(1, 257))
  {
    var ref := "IW1";
    assert ref[1..] == "W1" && ref[2..] == "1" && "W1"[1..] == "1" && "1"[1..] == "";
    assert LetterRun("1") == 0 && LetterRun("W1") == 1 && LetterRun(ref) == 2;
    assert DigitRun("") == 0 && DigitRun("1") == 1;
    assert ref[..2] == "IW" && "IW"[..1] == "I" && "I"[..0] == "" && "1"[..0] == "";
    assert Upper("IW") == "IW";
    assert ColumnIndex("I") == 9 && ColumnIndex("IW") == 257;
    assert Decimal("1") == 1;
  }

  /** One cell in column 257: the grid packs it alone, the text puts it behind 256 blanks. */
  lemma AWideSheetDiffers()
    ensures Printable("S", [IN_COLUMN_257])
    ensures ReadRows(SheetText("S", [IN_COLUMN_257])) !=
      WithoutBlankRows(LaidOut(Positioned([IN_COLUMN_257])) + FallbackRows([IN_COLUMN_257]))
  {
    hide Coordinates, ReadRows, SheetText, LaidOut, FallbackRows, WithoutBlankRows;
    WhereIW1Is();
    assert "x"[0] == 'x' && "S"[0] == 'S' && 'S' in "S";
    var grid := Positioned([IN_COLUMN_257]);
    assert [IN_COLUMN_257][..0] == [] && Positioned([]) == map[];
    assert HasText(IN_COLUMN_257) && Coordinates(IN_COLUMN_257.ref) == Some(Position(1, 257));
    assert grid == Put(map[], Position(1, 257), "x");
    assert grid == map[1 := map[257 := "x"]];
    assert 257 in grid[1] && 257 in Occupied(grid);
    assert LastColumn(grid) >= 257;
    assert |grid[1]| == 1 && !IsFull(grid);
    RoundTrip("S", [IN_COLUMN_257]);
  }
}
