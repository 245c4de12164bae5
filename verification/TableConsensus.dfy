/** Comparing PDF table extractors and selecting one (core/parsers/pdf_table_extraction.py,
    `build_table_extraction_report`). */
module TableConsensus {
  import opened Prelude
  import opened PairNames

  datatype TableBBox = TableBBox(x: real, y: real, width: real, height: real)

  datatype Table = Table(pageNumber: int, rows: seq<seq<string>>, cellBoxes: seq<seq<Option<TableBBox>>>)

  /** A candidate with status "ok"; the others take no part. */
  datatype Candidate = Candidate(name: string, ok: bool, tables: seq<Table>)

  datatype Shape = Shape(rows: nat, columns: nat, requireCellBoxes: bool)

  datatype Kind = MissingTable | RowCount | ColumnCount | CellBoundary | CandidateTableCount | CandidatePage
    | CandidateShape | CandidateText

  datatype Mismatch = Mismatch(kind: Kind, candidate: string, table: nat)

  // ---- Tables

  ghost function Widths(table: Table): seq<nat> {
    seq(|table.rows|, i requires 0 <= i < |table.rows| => |table.rows[i]|)
  }

  ghost predicate IsRectangular(table: Table) {
    forall i, k :: 0 <= i < k < |table.rows| ==> |table.rows[i]| == |table.rows[k]|
  }

  ghost function ColumnCountOf(table: Table): nat {
    if table.rows == [] || !IsRectangular(table) then 0 else |table.rows[0]|
  }

  /** There is a cell, and every cell has a box. */
  ghost predicate HasCellBoxes(table: Table) {
    && (exists i :: 0 <= i < |table.rows| && table.rows[i] != [])
    && |table.cellBoxes| == |table.rows|
    && forall i :: 0 <= i < |table.rows| ==> RowHasBoxes(table.rows[i], table.cellBoxes[i])
  }

  ghost predicate RowHasBoxes(row: seq<string>, boxes: seq<Option<TableBBox>>) {
    |boxes| == |row| && forall k :: 0 <= k < |boxes| ==> boxes[k].Some?
  }

  /** The same number of rows, of the same widths, with the same normalised texts. */
  ghost predicate SameText(norm: string -> string, a: Table, b: Table) {
    Widths(a) == Widths(b)
    && forall i, k :: 0 <= i < |a.rows| && 0 <= k < |a.rows[i]| && i < |b.rows| && k < |b.rows[i]| ==>
      norm(a.rows[i][k]) == norm(b.rows[i][k])
  }

  // ---- What a mismatch says

  ghost predicate TablesDisagree(norm: string -> string, a: Table, b: Table, kind: Kind) {
    match kind
    case CandidatePage => a.pageNumber != b.pageNumber
    case CandidateShape => Widths(a) != Widths(b)
    case CandidateText => Widths(a) == Widths(b) && !SameText(norm, a, b)
    case _ => false
  }

  /** The two candidates disagree, on their number of tables or on the table at `k`. */
  ghost predicate Disagree(norm: string -> string, a: Candidate, b: Candidate, kind: Kind, k: nat) {
    if kind == CandidateTableCount then k == 0 && |a.tables| != |b.tables|
    else k < |a.tables| && k < |b.tables| && TablesDisagree(norm, a.tables[k], b.tables[k], kind)
  }

  ghost predicate Agree(norm: string -> string, a: Candidate, b: Candidate) {
    |a.tables| == |b.tables| && forall k :: 0 <= k < |a.tables| ==>
      a.tables[k].pageNumber == b.tables[k].pageNumber && SameText(norm, a.tables[k], b.tables[k])
  }

  lemma AgreeUnlessDisagree(norm: string -> string, a: Candidate, b: Candidate)
    ensures Agree(norm, a, b) <==> forall kind, k :: !Disagree(norm, a, b, kind, k)
  {
    hide SameText;
    if forall kind, k :: !Disagree(norm, a, b, kind, k) {
      assert !Disagree(norm, a, b, CandidateTableCount, 0);
      forall k: nat | k < |a.tables|
        ensures a.tables[k].pageNumber == b.tables[k].pageNumber && SameText(norm, a.tables[k], b.tables[k]) {
        assert !Disagree(norm, a, b, CandidatePage, k) && !Disagree(norm, a, b, CandidateShape, k)
          && !Disagree(norm, a, b, CandidateText, k);
      }
    } else {
      var kind: Kind, k: nat :| Disagree(norm, a, b, kind, k);
      if kind != CandidateTableCount && SameText(norm, a.tables[k], b.tables[k]) {
        SameTextSameWidths(norm, a.tables[k], b.tables[k]);
      }
    }
  }

  lemma SameTextSameWidths(norm: string -> string, a: Table, b: Table)
    requires SameText(norm, a, b)
    ensures Widths(a) == Widths(b)
  {
  }

  lemma SameTextIsEquivalence(norm: string -> string, a: Table, b: Table, c: Table)
    ensures SameText(norm, a, b) ==> SameText(norm, b, a)
    ensures SameText(norm, a, b) && SameText(norm, b, c) ==> SameText(norm, a, c)
  {
    if Widths(a) == Widths(b) {
      SameSizes(a, b);
    }
    if Widths(b) == Widths(c) {
      SameSizes(b, c);
    }
  }

  lemma SameSizes(a: Table, b: Table)
    requires Widths(a) == Widths(b)
    ensures |a.rows| == |b.rows| && forall i :: 0 <= i < |a.rows| ==> |a.rows[i]| == |b.rows[i]|
  {
    forall i | 0 <= i < |a.rows| ensures |a.rows[i]| == |b.rows[i]| {
      assert Widths(a)[i] == Widths(b)[i];
    }
  }

  lemma AgreementIsEquivalence(norm: string -> string, a: Candidate, b: Candidate, c: Candidate)
    ensures Agree(norm, a, b) ==> Agree(norm, b, a)
    ensures Agree(norm, a, b) && Agree(norm, b, c) ==> Agree(norm, a, c)
  {
    hide SameText;
    forall k | 0 <= k < |a.tables| && k < |b.tables|
      ensures SameText(norm, a.tables[k], b.tables[k]) ==> SameText(norm, b.tables[k], a.tables[k])
      ensures k < |c.tables| && SameText(norm, a.tables[k], b.tables[k]) && SameText(norm, b.tables[k], c.tables[k]) ==>
        SameText(norm, a.tables[k], c.tables[k])
    {
      SameTextIsEquivalence(norm, a.tables[k], b.tables[k], if k < |c.tables| then c.tables[k] else a.tables[k]);
    }
  }

  // ---- The candidate on its own

  ghost function Ok(candidates: seq<Candidate>): seq<Candidate> {
    if candidates == [] then []
    else
      var init := Ok(candidates[..|candidates| - 1]);
      if candidates[|candidates| - 1].ok then init + [candidates[|candidates| - 1]] else init
  }

  /** The first table kept under a name: that of the last candidate of the name. */
  ghost function FirstTable(ok: seq<Candidate>, name: string): Option<Table> {
    if ok == [] then None
    else
      var last := ok[|ok| - 1];
      if last.name == name then (if last.tables == [] then None else Some(last.tables[0]))
        else FirstTable(ok[..|ok| - 1], name)
  }

  ghost predicate OwnProblem(ok: seq<Candidate>, expected: Option<Shape>, c: Candidate, kind: Kind, k: nat) {
    var first := FirstTable(ok, c.name);
    match kind
    case MissingTable => k == 0 && first.None?
    case RowCount => k == 0 && expected.Some? && first.Some? && |first.value.rows| != expected.value.rows
    case ColumnCount => k == 0 && expected.Some? && first.Some?
      && (!IsRectangular(first.value) || ColumnCountOf(first.value) != expected.value.columns)
    case CellBoundary => (expected.Some? ==> expected.value.requireCellBoxes) && k < |c.tables|
      && !HasCellBoxes(c.tables[k])
    case _ => false
  }

  // ---- The report

  ghost predicate FoundAlone(ok: seq<Candidate>, expected: Option<Shape>, m: Mismatch) {
    exists i :: 0 <= i < |ok| && ok[i].name == m.candidate && OwnProblem(ok, expected, ok[i], m.kind, m.table)
  }

  ghost predicate PairFound(norm: string -> string, a: Candidate, b: Candidate, m: Mismatch) {
    m.candidate == Label(a.name, b.name) && Disagree(norm, a, b, m.kind, m.table)
  }

  ghost predicate FoundInPair(norm: string -> string, ok: seq<Candidate>, m: Mismatch) {
    exists i, j :: 0 <= i < j < |ok| && PairFound(norm, ok[i], ok[j], m)
  }

  ghost predicate IsPairKind(kind: Kind) {
    kind == CandidateTableCount || kind == CandidatePage || kind == CandidateShape || kind == CandidateText
  }

  const PREFERRED := ["camelot:lattice", "pdfplumber:table", "camelot:stream"]

  /** What `_select_candidate` blocks. */
  ghost predicate Blocked(mismatches: seq<Mismatch>, consensus: bool, name: string) {
    exists i :: 0 <= i < |mismatches| && BlockedBy(mismatches[i], consensus, name)
  }

  ghost predicate BlockedBy(m: Mismatch, consensus: bool, name: string) {
    || (IsPlain(m.candidate) && m.candidate == name)
    || (consensus && IsPairKind(m.kind) && name in Split(m.candidate))
  }

  ghost predicate HasTable(ok: seq<Candidate>, name: string) {
    exists i :: 0 <= i < |ok| && ok[i].name == name && ok[i].tables != []
  }

  ghost predicate Eligible(ok: seq<Candidate>, mismatches: seq<Mismatch>, consensus: bool, name: string) {
    HasTable(ok, name) && !Blocked(mismatches, consensus, name)
  }

  ghost function Selected(ok: seq<Candidate>, mismatches: seq<Mismatch>, consensus: bool): Option<string> {
    if Eligible(ok, mismatches, consensus, PREFERRED[0]) then Some(PREFERRED[0])
    else if Eligible(ok, mismatches, consensus, PREFERRED[1]) then Some(PREFERRED[1])
    else if Eligible(ok, mismatches, consensus, PREFERRED[2]) then Some(PREFERRED[2])
    else None
  }

  /** `_select_candidate` */
  method SelectCandidate(ok: seq<Candidate>, mismatches: seq<Mismatch>, consensus: bool)
    returns (selected: Option<string>)
    ensures selected == Selected(ok, mismatches, consensus)
  {
    hide Split;
    var blocked: set<string> := {};
    for i := 0 to |mismatches|
      invariant forall name :: name in blocked <==>
        exists k :: 0 <= k < i && IsPlain(mismatches[k].candidate) && mismatches[k].candidate == name
    {
      if First(mismatches[i].candidate) == None {
        blocked := blocked + {mismatches[i].candidate};
      }
    }
    ghost var alone := blocked;
    if consensus {
      for i := 0 to |mismatches|
        invariant forall name :: name in blocked <==>
          name in alone || exists k :: 0 <= k < i && IsPairKind(mismatches[k].kind) && name in Split(mismatches[k].candidate)
      {
        if mismatches[i].kind in {CandidatePage, CandidateShape, CandidateTableCount, CandidateText} {
          var parts := Split(mismatches[i].candidate);
          blocked := blocked + set part | part in parts;
        }
      }
    }
    assert forall name :: name in blocked <==> Blocked(mismatches, consensus, name);
    selected := None;
    var preferred := ["camelot:lattice", "pdfplumber:table", "camelot:stream"];
    for p := 0 to 3
      invariant forall q :: 0 <= q < p ==> !Eligible(ok, mismatches, consensus, PREFERRED[q])
    {
      for i := 0 to |ok|
        invariant forall k :: 0 <= k < i ==>
          !(ok[k].name == PREFERRED[p] && PREFERRED[p] !in blocked && ok[k].tables != [])
      {
        if ok[i].name == preferred[p] && ok[i].name !in blocked && ok[i].tables != [] {
          return Some(ok[i].name);
        }
      }
    }
  }

  // ---- The properties of a table, as they are computed

  /** `row_widths` */
  method RowWidths(table: Table) returns (widths: seq<nat>)
    ensures widths == Widths(table)
  {
    widths := [];
    for i := 0 to |table.rows|
      invariant widths == Widths(table)[..i]
    {
      widths := widths + [|table.rows[i]|];
    }
  }

  /** `is_rectangular` and `column_count` */
  method CountColumns(table: Table) returns (rectangular: bool, columns: nat)
    ensures rectangular == IsRectangular(table) && columns == ColumnCountOf(table)
  {
    rectangular := true;
    columns := 0;
    for i := 0 to |table.rows|
      invariant rectangular <==> forall j, k :: 0 <= j < k < i ==> |table.rows[j]| == |table.rows[k]|
    {
      if |table.rows[i]| != |table.rows[0]| {
        rectangular := false;
      }
    }
    if rectangular && table.rows != [] {
      columns := |table.rows[0]|;
    }
  }

  /** `has_cell_bboxes` */
  method CheckCellBoxes(table: Table) returns (boxed: bool)
    ensures boxed == HasCellBoxes(table)
  {
    var cells := 0;
    for i := 0 to |table.rows|
      invariant cells > 0 <==> exists j :: 0 <= j < i && table.rows[j] != []
      invariant cells >= 0
    {
      cells := cells + |table.rows[i]|;
    }
    if cells == 0 || |table.cellBoxes| != |table.rows| {
      return false;
    }
    for i := 0 to |table.rows|
      invariant forall j :: 0 <= j < i ==> RowHasBoxes(table.rows[j], table.cellBoxes[j])
    {
      if |table.cellBoxes[i]| != |table.rows[i]| {
        return false;
      }
      for k := 0 to |table.cellBoxes[i]|
        invariant forall l :: 0 <= l < k ==> table.cellBoxes[i][l].Some?
      {
        if table.cellBoxes[i][k] == None {
          return false;
        }
      }
    }
    boxed := true;
  }

  /** `_table_text_key` */
  method TextKey(norm: string -> string, table: Table) returns (key: seq<seq<string>>)
    ensures IsTextKey(norm, table, key)
  {
    key := [];
    for i := 0 to |table.rows|
      invariant |key| == i
      invariant forall j :: 0 <= j < i ==> IsRowKey(norm, table.rows[j], key[j])
    {
      var row: seq<string> := [];
      for k := 0 to |table.rows[i]|
        invariant |row| == k && forall l :: 0 <= l < k ==> row[l] == norm(table.rows[i][l])
      {
        row := row + [norm(table.rows[i][k])];
      }
      key := key + [row];
    }
  }

  ghost predicate IsRowKey(norm: string -> string, row: seq<string>, key: seq<string>) {
    |key| == |row| && forall k :: 0 <= k < |row| ==> key[k] == norm(row[k])
  }

  ghost predicate IsTextKey(norm: string -> string, table: Table, key: seq<seq<string>>) {
    |key| == |table.rows| && forall i :: 0 <= i < |table.rows| ==> IsRowKey(norm, table.rows[i], key[i])
  }

  lemma KeysCompareTexts(norm: string -> string, a: Table, b: Table, left: seq<seq<string>>, right: seq<seq<string>>)
    requires IsTextKey(norm, a, left) && IsTextKey(norm, b, right) && Widths(a) == Widths(b)
    ensures left == right <==> SameText(norm, a, b)
  {
    SameSizes(a, b);
    if SameText(norm, a, b) {
      forall i | 0 <= i < |left| ensures left[i] == right[i] {
        assert IsRowKey(norm, a.rows[i], left[i]) && IsRowKey(norm, b.rows[i], right[i]);
      }
    } else {
      var i, k :| 0 <= i < |a.rows| && 0 <= k < |a.rows[i]| && norm(a.rows[i][k]) != norm(b.rows[i][k]);
      assert IsRowKey(norm, a.rows[i], left[i]) && IsRowKey(norm, b.rows[i], right[i]);
      assert left[i][k] != right[i][k];
    }
  }

  /** The `first_tables` dictionary */
  method FirstTables(ok: seq<Candidate>) returns (firstTables: map<string, Option<Table>>)
    ensures forall i :: 0 <= i < |ok| ==>
      ok[i].name in firstTables && firstTables[ok[i].name] == FirstTable(ok, ok[i].name)
  {
    firstTables := map[];
    for i := 0 to |ok|
      invariant forall k :: 0 <= k < i ==> ok[k].name in firstTables
      invariant forall name :: name in firstTables ==> firstTables[name] == FirstTable(ok[..i], name)
    {
      assert ok[..i + 1][..i] == ok[..i];
      firstTables := firstTables[ok[i].name := if ok[i].tables == [] then None else Some(ok[i].tables[0])];
    }
    assert ok[..|ok|] == ok;
  }

  method OwnMismatches(ok: seq<Candidate>, expected: Option<Shape>) returns (mismatches: seq<Mismatch>)
    ensures forall m :: m in mismatches <==> FoundAlone(ok, expected, m)
  {
    hide HasCellBoxes, IsRectangular, FirstTable, ColumnCountOf;
    var firstTables := FirstTables(ok);
    var requireBoxes := if expected.Some? then expected.value.requireCellBoxes else true;
    mismatches := [];
    for i := 0 to |ok|
      invariant forall m :: m in mismatches <==> m.kind == MissingTable && FoundUpTo(ok, expected, m, i)
    {
      if firstTables[ok[i].name].None? {
        mismatches := mismatches + [Mismatch(MissingTable, ok[i].name, 0)];
      }
    }
    if expected.Some? {
      for i := 0 to |ok|
        invariant forall m :: m in mismatches <==>
          if m.kind == MissingTable then FoundAlone(ok, expected, m)
            else (m.kind == RowCount || m.kind == ColumnCount) && FoundUpTo(ok, expected, m, i)
      {
        var table := firstTables[ok[i].name];
        if table.None? {
          continue;
        }
        if |table.value.rows| != expected.value.rows {
          mismatches := mismatches + [Mismatch(RowCount, ok[i].name, 0)];
        }
        var rectangular, columns := CountColumns(table.value);
        if !rectangular || columns != expected.value.columns {
          mismatches := mismatches + [Mismatch(ColumnCount, ok[i].name, 0)];
        }
      }
    }
    if requireBoxes {
      var boundaries := BoundaryMismatches(ok, expected);
      mismatches := mismatches + boundaries;
    }
  }

  /** Found for one of the first `n` candidates. */
  ghost predicate FoundUpTo(ok: seq<Candidate>, expected: Option<Shape>, m: Mismatch, n: nat) {
    exists i :: 0 <= i < n && i < |ok| && ok[i].name == m.candidate && OwnProblem(ok, expected, ok[i], m.kind, m.table)
  }

  method BoundaryMismatches(ok: seq<Candidate>, expected: Option<Shape>) returns (mismatches: seq<Mismatch>)
    requires expected.Some? ==> expected.value.requireCellBoxes
    ensures forall m :: m in mismatches <==> m.kind == CellBoundary && FoundAlone(ok, expected, m)
  {
    hide HasCellBoxes, FirstTable;
    mismatches := [];
    for i := 0 to |ok|
      invariant forall m :: m in mismatches <==> m.kind == CellBoundary && FoundUpTo(ok, expected, m, i)
    {
      ghost var before := mismatches;
      for k := 0 to |ok[i].tables|
        invariant forall m :: m in mismatches <==>
          m in before
          || (m.kind == CellBoundary && m.candidate == ok[i].name && m.table < k && !HasCellBoxes(ok[i].tables[m.table]))
      {
        var boxed := CheckCellBoxes(ok[i].tables[k]);
        if boxed {
          continue;
        }
        mismatches := mismatches + [Mismatch(CellBoundary, ok[i].name, k)];
      }
    }
  }

  method PairMismatches(norm: string -> string, a: Candidate, b: Candidate) returns (mismatches: seq<Mismatch>)
    ensures forall m :: m in mismatches <==> PairFound(norm, a, b, m)
  {
    hide SameText, Label;
    mismatches := [];
    if |a.tables| != |b.tables| {
      mismatches := [Mismatch(CandidateTableCount, Label(a.name, b.name), 0)];
    }
    var count := if |a.tables| <= |b.tables| then |a.tables| else |b.tables|;
    for k := 0 to count
      invariant forall m :: m in mismatches <==>
        PairFound(norm, a, b, m) && (m.kind == CandidateTableCount || m.table < k)
    {
      if a.tables[k].pageNumber != b.tables[k].pageNumber {
        mismatches := mismatches + [Mismatch(CandidatePage, Label(a.name, b.name), k)];
      }
      var leftWidths := RowWidths(a.tables[k]);
      var rightWidths := RowWidths(b.tables[k]);
      if leftWidths != rightWidths {
        mismatches := mismatches + [Mismatch(CandidateShape, Label(a.name, b.name), k)];
        continue;
      }
      var leftKey := TextKey(norm, a.tables[k]);
      var rightKey := TextKey(norm, b.tables[k]);
      KeysCompareTexts(norm, a.tables[k], b.tables[k], leftKey, rightKey);
      if leftKey != rightKey {
        mismatches := mismatches + [Mismatch(CandidateText, Label(a.name, b.name), k)];
      }
    }
  }

  /** `build_table_extraction_report`: every mismatch there is, and none else. */
  method BuildReport(norm: string -> string, candidates: seq<Candidate>, expected: Option<Shape>)
    returns (mismatches: seq<Mismatch>, selected: Option<string>)
    ensures forall m :: m in mismatches <==>
      FoundAlone(Ok(candidates), expected, m) || FoundInPair(norm, Ok(candidates), m)
    ensures forall m: Mismatch :: m.kind in {CandidateTableCount, CandidatePage, CandidateShape, CandidateText} ==>
      (m in mismatches <==> IsDifference(norm, Ok(candidates), m))
    ensures selected == Selected(Ok(candidates), mismatches, expected.None?)
  {
    hide OwnProblem, PairFound, Eligible, FoundAlone, FoundInPair, IsDifference;
    var ok: seq<Candidate> := [];
    for i := 0 to |candidates|
      invariant ok == Ok(candidates[..i])
    {
      assert candidates[..i + 1][..i] == candidates[..i];
      if candidates[i].ok {
        ok := ok + [candidates[i]];
      }
    }
    assert candidates[..|candidates|] == candidates;
    mismatches := OwnMismatches(ok, expected);
    ghost var alone := mismatches;
    for i := 0 to |ok|
      invariant forall m :: m in mismatches <==>
        m in alone || exists k, j :: 0 <= k < i && k < j < |ok| && PairFound(norm, ok[k], ok[j], m)
    {
      ghost var before := mismatches;
      for j := i + 1 to |ok|
        invariant forall m :: m in mismatches <==>
          m in before || exists l :: i < l < j && PairFound(norm, ok[i], ok[l], m)
      {
        var found := PairMismatches(norm, ok[i], ok[j]);
        mismatches := mismatches + found;
      }
    }
    AllFound(norm, ok, expected, alone, mismatches);
    forall m: Mismatch | m.kind in {CandidateTableCount, CandidatePage, CandidateShape, CandidateText}
      ensures m in mismatches <==> IsDifference(norm, ok, m)
    {
      DifferencesAreReported(norm, ok, expected, m);
    }
    selected := SelectCandidate(ok, mismatches, expected.None?);
  }

  lemma AllFound(norm: string -> string, ok: seq<Candidate>, expected: Option<Shape>, alone: seq<Mismatch>,
      mismatches: seq<Mismatch>)
    requires forall m :: m in alone <==> FoundAlone(ok, expected, m)
    requires forall m :: m in mismatches <==>
      m in alone || exists k, j :: 0 <= k < |ok| && k < j < |ok| && PairFound(norm, ok[k], ok[j], m)
    ensures forall m :: m in mismatches <==> FoundAlone(ok, expected, m) || FoundInPair(norm, ok, m)
  {
    hide FoundAlone, PairFound;
  }

  // ---- What a disagreement is, on rows and cells

  ghost predicate SameShape(a: Table, b: Table) {
    |a.rows| == |b.rows| && forall r :: 0 <= r < |a.rows| ==> |a.rows[r]| == |b.rows[r]|
  }

  /** Both tables have a cell at row `r` and column `c`, and the normalised texts differ. */
  ghost predicate CellDiffers(norm: string -> string, a: Table, b: Table, r: int, c: int) {
    && 0 <= r < |a.rows| && r < |b.rows| && 0 <= c < |a.rows[r]| && c < |b.rows[r]|
    && norm(a.rows[r][c]) != norm(b.rows[r][c])
  }

  ghost predicate PairDiffers(norm: string -> string, a: Candidate, b: Candidate, kind: Kind, k: nat) {
    match kind
    case CandidateTableCount => k == 0 && |a.tables| != |b.tables|
    case CandidatePage => k < |a.tables| && k < |b.tables| && a.tables[k].pageNumber != b.tables[k].pageNumber
    case CandidateShape => k < |a.tables| && k < |b.tables| && !SameShape(a.tables[k], b.tables[k])
    case CandidateText =>
      && k < |a.tables| && k < |b.tables| && SameShape(a.tables[k], b.tables[k])
      && exists r, c :: CellDiffers(norm, a.tables[k], b.tables[k], r, c)
    case _ => false
  }

  /** Two candidates differ as the mismatch says, and its label names them. */
  ghost predicate IsDifference(norm: string -> string, ok: seq<Candidate>, m: Mismatch) {
    exists i, j :: 0 <= i < j < |ok| && m.candidate == ok[i].name + " vs " + ok[j].name
                   && PairDiffers(norm, ok[i], ok[j], m.kind, m.table)
  }

  lemma TablesDiffer(norm: string -> string, a: Table, b: Table)
    ensures SameShape(a, b) <==> Widths(a) == Widths(b)
    ensures SameShape(a, b) ==> (SameText(norm, a, b) <==> !exists r, c :: CellDiffers(norm, a, b, r, c))
  {
    if Widths(a) == Widths(b) {
      SameSizes(a, b);
      if !SameText(norm, a, b) {
        var r, c :| 0 <= r < |a.rows| && 0 <= c < |a.rows[r]| && norm(a.rows[r][c]) != norm(b.rows[r][c]);
        assert CellDiffers(norm, a, b, r, c);
      }
    }
  }

  lemma DisagreeMeans(norm: string -> string, a: Candidate, b: Candidate, kind: Kind, k: nat)
    ensures Disagree(norm, a, b, kind, k) <==> PairDiffers(norm, a, b, kind, k)
  {
    hide SameText, CellDiffers, SameShape;
    if k < |a.tables| && k < |b.tables| {
      TablesDiffer(norm, a.tables[k], b.tables[k]);
    }
  }

  /** The report's mismatches between candidates are exactly their differences. */
  lemma DifferencesAreReported(norm: string -> string, ok: seq<Candidate>, expected: Option<Shape>, m: Mismatch)
    requires m.kind in {CandidateTableCount, CandidatePage, CandidateShape, CandidateText}
    ensures FoundAlone(ok, expected, m) || FoundInPair(norm, ok, m) <==> IsDifference(norm, ok, m)
  {
    hide Disagree, PairDiffers;
    forall i, j | 0 <= i < j < |ok|
      ensures PairFound(norm, ok[i], ok[j], m) <==>
        m.candidate == ok[i].name + " vs " + ok[j].name && PairDiffers(norm, ok[i], ok[j], m.kind, m.table)
    {
      DisagreeMeans(norm, ok[i], ok[j], m.kind, m.table);
    }
  }

  // ---- Consensus is all or nothing

  /** A report as `BuildReport` promises it. */
  ghost predicate IsReport(norm: string -> string, ok: seq<Candidate>, expected: Option<Shape>,
      mismatches: seq<Mismatch>) {
    forall m :: m in mismatches <==> FoundAlone(ok, expected, m) || FoundInPair(norm, ok, m)
  }

  lemma PreferredArePlain(p: int)
    requires 0 <= p < 3
    ensures IsPlain(PREFERRED[p]) && !EndsLikeSeparator(PREFERRED[p])
  {
    forall i ensures !StartsHere(PREFERRED[p], i) {
      assert forall k :: 0 <= k < |PREFERRED[p]| ==> PREFERRED[p][k] != ' ';
    }
  }

  lemma NotBlocked(ok: seq<Candidate>, mismatches: seq<Mismatch>, consensus: bool, name: string, m: Mismatch)
    requires Eligible(ok, mismatches, consensus, name) && m in mismatches
    ensures !BlockedBy(m, consensus, name)
  {
    var i :| 0 <= i < |mismatches| && mismatches[i] == m;
  }

  /** Every disagreement with a candidate of the name `right` blocks that name. */
  ghost predicate NamesReveal(ok: seq<Candidate>) {
    forall i, p :: 0 <= i < |ok| && 0 <= p < 3 ==> Reveals(ok[i].name, PREFERRED[p])
  }

  /** A preferred name is a piece of every label that it takes part in. */
  lemma NamedInLabel(ok: seq<Candidate>, p: int, a: int, b: int)
    requires NamesReveal(ok) && 0 <= p < 3 && 0 <= a < |ok| && 0 <= b < |ok|
    requires ok[a].name == PREFERRED[p] || ok[b].name == PREFERRED[p]
    ensures PREFERRED[p] in Split(Label(ok[a].name, ok[b].name))
  {
    PreferredArePlain(p);
    if ok[a].name == PREFERRED[p] {
      LeftIsRevealed(ok[a].name, ok[b].name);
    } else {
      assert Reveals(ok[a].name, PREFERRED[p]);
    }
  }

  /** The selected candidate agrees with every other one. */
  lemma SelectedAgrees(norm: string -> string, ok: seq<Candidate>, mismatches: seq<Mismatch>, p: int, s: int, x: int)
    requires IsReport(norm, ok, None, mismatches) && NamesReveal(ok)
    requires 0 <= p < 3 && Eligible(ok, mismatches, true, PREFERRED[p])
    requires 0 <= s < |ok| && 0 <= x < |ok| && ok[s].name == PREFERRED[p]
    ensures Agree(norm, ok[s], ok[x])
  {
    hide Disagree, Split, Eligible, FoundAlone, SameText, NamesReveal, Agree;
    var a, b := if s <= x then s else x, if s <= x then x else s;
    AgreeUnlessDisagree(norm, ok[a], ok[b]);
    AgreementIsEquivalence(norm, ok[a], ok[b], ok[a]);
    NamedInLabel(ok, p, a, b);
    if s == x {
      SelfAgrees(norm, ok[s]);
    } else if !Agree(norm, ok[a], ok[b]) {
      var kind: Kind, k: nat :| Disagree(norm, ok[a], ok[b], kind, k);
      var m := Mismatch(kind, Label(ok[a].name, ok[b].name), k);
      DisagreeKind(norm, ok[a], ok[b], kind, k);
      assert PairFound(norm, ok[a], ok[b], m);
      NotBlocked(ok, mismatches, true, PREFERRED[p], m);
    }
  }

  lemma SelfAgrees(norm: string -> string, a: Candidate)
    ensures Agree(norm, a, a)
  {
  }

  lemma DisagreeKind(norm: string -> string, a: Candidate, b: Candidate, kind: Kind, k: nat)
    requires Disagree(norm, a, b, kind, k)
    ensures IsPairKind(kind)
  {
  }

  ghost predicate AllBoxed(c: Candidate) {
    c.tables != [] && forall k :: 0 <= k < |c.tables| ==> HasCellBoxes(c.tables[k])
  }

  ghost predicate AllAgree(norm: string -> string, ok: seq<Candidate>) {
    forall i, j :: 0 <= i < |ok| && 0 <= j < |ok| ==> Agree(norm, ok[i], ok[j])
  }

  /** Every extractor agrees with every other one, and all cells of this one have a box. */
  ghost predicate Trusted(norm: string -> string, ok: seq<Candidate>, name: string) {
    HasTable(ok, name) && AllAgree(norm, ok) && forall i :: 0 <= i < |ok| && ok[i].name == name ==> AllBoxed(ok[i])
  }

  lemma EligibleIsTrusted(norm: string -> string, ok: seq<Candidate>, mismatches: seq<Mismatch>, p: int)
    requires IsReport(norm, ok, None, mismatches) && NamesReveal(ok)
    requires 0 <= p < 3 && Eligible(ok, mismatches, true, PREFERRED[p])
    ensures Trusted(norm, ok, PREFERRED[p])
  {
    hide Blocked, Agree, HasCellBoxes, IsReport, NamesReveal;
    var name := PREFERRED[p];
    var s :| 0 <= s < |ok| && ok[s].name == name && ok[s].tables != [];
    forall i, j | 0 <= i < |ok| && 0 <= j < |ok| ensures Agree(norm, ok[i], ok[j]) {
      SelectedAgrees(norm, ok, mismatches, p, s, i);
      SelectedAgrees(norm, ok, mismatches, p, s, j);
      AgreementIsEquivalence(norm, ok[s], ok[i], ok[i]);
      AgreementIsEquivalence(norm, ok[i], ok[s], ok[j]);
    }
    forall i | 0 <= i < |ok| && ok[i].name == name ensures AllBoxed(ok[i]) {
      AgreeOnCount(norm, ok[i], ok[s]);
      forall k | 0 <= k < |ok[i].tables| ensures HasCellBoxes(ok[i].tables[k]) {
        SelectedIsBoxed(norm, ok, mismatches, p, i, k);
      }
    }
  }

  lemma {:induction false} HasFirstTable(ok: seq<Candidate>, name: string)
    requires HasTable(ok, name) && forall i :: 0 <= i < |ok| && ok[i].name == name ==> ok[i].tables != []
    ensures FirstTable(ok, name).Some?
  {
    var n := |ok| - 1;
    if ok[n].name != name {
      var i :| 0 <= i < |ok| && ok[i].name == name && ok[i].tables != [];
      assert ok[..n][i] == ok[i];
      HasFirstTable(ok[..n], name);
    }
  }

  lemma TrustedIsEligible(norm: string -> string, ok: seq<Candidate>, mismatches: seq<Mismatch>, p: int)
    requires IsReport(norm, ok, None, mismatches)
    requires 0 <= p < 3 && Trusted(norm, ok, PREFERRED[p])
    ensures Eligible(ok, mismatches, true, PREFERRED[p])
  {
    hide HasCellBoxes, Agree, Disagree, Split, IsPlain, HasTable, FirstTable, SameText;
    var name := PREFERRED[p];
    HasFirstTable(ok, name);
    forall i | 0 <= i < |mismatches| ensures !BlockedBy(mismatches[i], true, name) {
      var m := mismatches[i];
      assert m in mismatches;
      if FoundInPair(norm, ok, m) {
        var a, b :| 0 <= a < b < |ok| && PairFound(norm, ok[a], ok[b], m);
        assert Agree(norm, ok[a], ok[b]);
        AgreeUnlessDisagree(norm, ok[a], ok[b]);
      } else {
        assert FoundAlone(ok, None, m);
      }
    }
  }

  /** Without an expected shape, a preferred candidate can be selected exactly when all candidates
      agree pairwise and all its own cells have boxes; the first such name is selected. So one
      disagreeing pair anywhere blocks every selection. */
  lemma SelectionIsConsensus(norm: string -> string, ok: seq<Candidate>, mismatches: seq<Mismatch>)
    requires IsReport(norm, ok, None, mismatches) && NamesReveal(ok)
    ensures Selected(ok, mismatches, true) ==
      if Trusted(norm, ok, PREFERRED[0]) then Some(PREFERRED[0])
      else if Trusted(norm, ok, PREFERRED[1]) then Some(PREFERRED[1])
      else if Trusted(norm, ok, PREFERRED[2]) then Some(PREFERRED[2])
      else None
  {
    hide IsReport, NamesReveal, Trusted, Eligible;
    forall p: int | 0 <= p < 3
      ensures Eligible(ok, mismatches, true, PREFERRED[p]) <==> Trusted(norm, ok, PREFERRED[p]) {
      if Eligible(ok, mismatches, true, PREFERRED[p]) {
        EligibleIsTrusted(norm, ok, mismatches, p);
      }
      if Trusted(norm, ok, PREFERRED[p]) {
        TrustedIsEligible(norm, ok, mismatches, p);
      }
    }
  }

  // ---- Selection for an expected shape

  /** The table kept under the name has the expected shape, and all cells of all tables of the name
      have boxes if that is required. */
  ghost predicate Fits(ok: seq<Candidate>, shape: Shape, name: string) {
    && HasTable(ok, name) && HasShape(FirstTable(ok, name), shape)
    && (shape.requireCellBoxes ==>
        forall i, k :: 0 <= i < |ok| && ok[i].name == name && 0 <= k < |ok[i].tables| ==> HasCellBoxes(ok[i].tables[k]))
  }

  ghost predicate HasShape(table: Option<Table>, shape: Shape) {
    table.Some? && |table.value.rows| == shape.rows && IsRectangular(table.value)
      && ColumnCountOf(table.value) == shape.columns
  }

  lemma OwnProblemBlocks(norm: string -> string, ok: seq<Candidate>, expected: Option<Shape>,
      mismatches: seq<Mismatch>, p: int, i: nat, kind: Kind, k: nat)
    requires IsReport(norm, ok, expected, mismatches)
    requires 0 <= p < 3 && Eligible(ok, mismatches, expected.None?, PREFERRED[p])
    requires i < |ok| && ok[i].name == PREFERRED[p]
    ensures !OwnProblem(ok, expected, ok[i], kind, k)
  {
    hide OwnProblem, FoundInPair, Split, IsPlain, HasTable;
    if OwnProblem(ok, expected, ok[i], kind, k) {
      var m := Mismatch(kind, ok[i].name, k);
      assert FoundAlone(ok, expected, m);
      NotBlocked(ok, mismatches, expected.None?, PREFERRED[p], m);
      PreferredArePlain(p);
    }
  }

  /** With an expected shape, disagreements block nothing: a preferred name is eligible exactly when
      its own tables fit. */
  lemma SelectionForShape(norm: string -> string, ok: seq<Candidate>, shape: Shape, mismatches: seq<Mismatch>, p: int)
    requires IsReport(norm, ok, Some(shape), mismatches) && 0 <= p < 3
    ensures Eligible(ok, mismatches, false, PREFERRED[p]) <==> Fits(ok, shape, PREFERRED[p])
  {
    hide HasCellBoxes, IsRectangular, ColumnCountOf, FirstTable, IsPlain, Split;
    var name := PREFERRED[p];
    if Eligible(ok, mismatches, false, name) {
      var s :| 0 <= s < |ok| && ok[s].name == name && ok[s].tables != [];
      OwnProblemBlocks(norm, ok, Some(shape), mismatches, p, s, MissingTable, 0);
      OwnProblemBlocks(norm, ok, Some(shape), mismatches, p, s, RowCount, 0);
      OwnProblemBlocks(norm, ok, Some(shape), mismatches, p, s, ColumnCount, 0);
      forall i: nat, k: nat | i < |ok| && ok[i].name == name && k < |ok[i].tables| && shape.requireCellBoxes
        ensures HasCellBoxes(ok[i].tables[k]) {
        OwnProblemBlocks(norm, ok, Some(shape), mismatches, p, i, CellBoundary, k);
      }
    }
    if Fits(ok, shape, name) {
      forall i | 0 <= i < |mismatches| ensures !BlockedBy(mismatches[i], false, name) {
        var m := mismatches[i];
        assert m in mismatches;
        if FoundInPair(norm, ok, m) {
          var a, b :| 0 <= a < b < |ok| && PairFound(norm, ok[a], ok[b], m);
          LabelIsNotPlain(ok[a].name, ok[b].name);
        } else {
          assert FoundAlone(ok, Some(shape), m);
        }
      }
    }
  }

  /** One cell that two extractors read differently blocks every selection. */
  lemma DifferentCellsBlock(norm: string -> string, ok: seq<Candidate>, mismatches: seq<Mismatch>, i: nat, j: nat,
      k: nat,
      r: int, c: int)
    requires IsReport(norm, ok, None, mismatches) && NamesReveal(ok)
    requires i < |ok| && j < |ok| && k < |ok[i].tables| && k < |ok[j].tables|
    requires CellDiffers(norm, ok[i].tables[k], ok[j].tables[k], r, c)
    ensures Selected(ok, mismatches, true) == None
  {
    hide IsReport, NamesReveal, HasTable, AllBoxed, SameText;
    SelectionIsConsensus(norm, ok, mismatches);
    TablesDiffer(norm, ok[i].tables[k], ok[j].tables[k]);
    if SameText(norm, ok[i].tables[k], ok[j].tables[k]) { SameTextSameShape(norm, ok[i].tables[k], ok[j].tables[k]); }
    assert !Agree(norm, ok[i], ok[j]);
  }

  lemma SameTextSameShape(norm: string -> string, a: Table, b: Table)
    requires SameText(norm, a, b)
    ensures SameShape(a, b)
  {
    SameSizes(a, b);
  }

  // ---- The names for which this fails

  /** Names whose last " vs "-separated piece does not end in " vs" are safe. */
  lemma UnconfusableNamesReveal(ok: seq<Candidate>)
    requires forall i :: 0 <= i < |ok| ==> !Confusable(ok[i].name)
    ensures NamesReveal(ok)
  {
    forall i, p | 0 <= i < |ok| && 0 <= p < 3 ensures Reveals(ok[i].name, PREFERRED[p]) {
      PreferredArePlain(p);
      UnconfusableReveals(ok[i].name, PREFERRED[p]);
    }
  }

  const A_BOX := Some(TableBBox(0.0, 0.0, 1.0, 1.0))

  ghost function OneCell(name: string, pageNumber: int): Candidate {
    Candidate(name, true, [Table(pageNumber, [["1"]], [[A_BOX]])])
  }

  /** A name that does not reveal a preferred one hides a disagreement: its label is torn apart so
      that the preferred name is not found, and the candidate of that name is selected although
      the two disagree on the page. */
  lemma AHiddenDisagreement(norm: string -> string, name: string, p: int, mismatches: seq<Mismatch>)
    requires 0 <= p < 3 && !Reveals(name, PREFERRED[p])
    requires IsReport(norm, [OneCell(name, 1), OneCell(PREFERRED[p], 2)], None, mismatches)
    ensures Selected([OneCell(name, 1), OneCell(PREFERRED[p], 2)], mismatches, true) == Some(PREFERRED[p])
    ensures !Agree(norm, OneCell(name, 1), OneCell(PREFERRED[p], 2))
  {
    hide Split, FirstFrom, SameText, IsPlain, Blocked, Reveals;
    var ok := [OneCell(name, 1), OneCell(PREFERRED[p], 2)];
    assert ok[1].name == PREFERRED[p] && HasTable(ok, PREFERRED[p]);
    assert OneCell(name, 1).tables[0].pageNumber != OneCell(PREFERRED[p], 2).tables[0].pageNumber;
    NothingBlocks(norm, name, p, mismatches);
    PreferredDiffer();
    forall q | 0 <= q < 3 && q != p ensures !HasTable(ok, PREFERRED[q]) {
      PreferredReveal(q, p);
    }
  }

  lemma NothingBlocks(norm: string -> string, name: string, p: int, mismatches: seq<Mismatch>)
    requires 0 <= p < 3 && !Reveals(name, PREFERRED[p])
    requires IsReport(norm, [OneCell(name, 1), OneCell(PREFERRED[p], 2)], None, mismatches)
    ensures !Blocked(mismatches, true, PREFERRED[p])
  {
    hide Split, FirstFrom, SameText, IsPlain;
    var ok := [OneCell(name, 1), OneCell(PREFERRED[p], 2)];
    OneCellIsBoxed(name, 1);
    OneCellIsBoxed(PREFERRED[p], 2);
    forall i | 0 <= i < |mismatches| ensures !BlockedBy(mismatches[i], true, PREFERRED[p]) {
      var m := mismatches[i];
      assert m in mismatches;
      NothingAlone(ok, m);
      LabelIsNotPlain(name, PREFERRED[p]);
    }
  }

  lemma PreferredDiffer()
    ensures forall p, q :: 0 <= p < q < 3 ==> PREFERRED[p] != PREFERRED[q]
  {
    assert |PREFERRED[0]| == 15 && |PREFERRED[1]| == 16 && |PREFERRED[2]| == 14;
  }

  lemma PreferredReveal(q: int, p: int)
    requires 0 <= q < 3 && 0 <= p < 3
    ensures Reveals(PREFERRED[q], PREFERRED[p])
  {
    PreferredArePlain(p);
    PreferredArePlain(q);
    PlainSplit(PREFERRED[q]);
    UnconfusableReveals(PREFERRED[q], PREFERRED[p]);
  }

  /** The two candidates have this report. */
  lemma OnlyThePageDiffers(norm: string -> string, name: string, p: int)
    requires 0 <= p < 3
    ensures IsReport(norm, [OneCell(name, 1), OneCell(PREFERRED[p], 2)], None,
      [Mismatch(CandidatePage, Label(name, PREFERRED[p]), 0)])
  {
    hide Label, OwnProblem;
    var a, b := OneCell(name, 1), OneCell(PREFERRED[p], 2);
    var ok, only := [a, b], Mismatch(CandidatePage, Label(name, PREFERRED[p]), 0);
    OneCellIsBoxed(name, 1);
    OneCellIsBoxed(PREFERRED[p], 2);
    forall m ensures m in [only] <==> FoundAlone(ok, None, m) || FoundInPair(norm, ok, m) {
      NothingAlone(ok, m);
      PageMismatch(norm, name, p, m);
      if FoundInPair(norm, ok, m) {
        var i, j :| 0 <= i < j < |ok| && PairFound(norm, ok[i], ok[j], m);
        assert i == 0 && j == 1;
      }
      if m == only {
        assert PairFound(norm, ok[0], ok[1], m);
      }
    }
  }

  lemma PageMismatch(norm: string -> string, name: string, p: int, m: Mismatch)
    requires 0 <= p < 3
    ensures PairFound(norm, OneCell(name, 1), OneCell(PREFERRED[p], 2), m) <==>
      m == Mismatch(CandidatePage, Label(name, PREFERRED[p]), 0)
  {
    hide Label;
    var a, b := OneCell(name, 1).tables[0], OneCell(PREFERRED[p], 2).tables[0];
    assert Widths(a) == Widths(b);
    assert SameText(norm, a, b);
  }

  /** All names are among these or preferred. */
  ghost predicate UsesNames(ok: seq<Candidate>, names: set<string>) {
    forall i :: 0 <= i < |ok| ==> ok[i].name in names || ok[i].name in PREFERRED
  }

  /** Whatever candidates of these names extract, a selection means that they agree. */
  ghost predicate ConsensusHolds(norm: string -> string, names: set<string>) {
    forall ok, mismatches ::
      UsesNames(ok, names) && IsReport(norm, ok, None, mismatches) && Selected(ok, mismatches, true).Some? ==>
        AllAgree(norm, ok)
  }

  ghost predicate AllReveal(names: set<string>) {
    forall name, p :: name in names && 0 <= p < 3 ==> Reveals(name, PREFERRED[p])
  }

  /** Consensus is all or nothing, whatever is extracted, exactly for the names that reveal all three
      preferred ones. */
  lemma ConsensusExactly(norm: string -> string, names: set<string>)
    ensures ConsensusHolds(norm, names) <==> AllReveal(names)
  {
    hide IsReport, Selected, AllAgree, Reveals, Trusted;
    if AllReveal(names) {
      forall ok, mismatches
        | UsesNames(ok, names) && IsReport(norm, ok, None, mismatches) && Selected(ok, mismatches, true).Some?
        ensures AllAgree(norm, ok)
      {
        UsedNamesReveal(ok, names);
        SelectionIsConsensus(norm, ok, mismatches);
        TrustedAgree(norm, ok);
      }
    } else {
      var name, p :| name in names && 0 <= p < 3 && !Reveals(name, PREFERRED[p]);
      var ok := [OneCell(name, 1), OneCell(PREFERRED[p], 2)];
      var mismatches := [Mismatch(CandidatePage, Label(name, PREFERRED[p]), 0)];
      OnlyThePageDiffers(norm, name, p);
      AHiddenDisagreement(norm, name, p, mismatches);
      TwoDisagree(norm, ok);
      assert UsesNames(ok, names);
    }
  }

  lemma TwoDisagree(norm: string -> string, ok: seq<Candidate>)
    requires |ok| == 2 && !Agree(norm, ok[0], ok[1])
    ensures !AllAgree(norm, ok)
  {
  }

  lemma TrustedAgree(norm: string -> string, ok: seq<Candidate>)
    ensures forall name :: Trusted(norm, ok, name) ==> AllAgree(norm, ok)
  {
    hide AllAgree;
  }

  lemma UsedNamesReveal(ok: seq<Candidate>, names: set<string>)
    requires UsesNames(ok, names) && AllReveal(names)
    ensures NamesReveal(ok)
  {
    hide Reveals;
    forall i, p | 0 <= i < |ok| && 0 <= p < 3 ensures Reveals(ok[i].name, PREFERRED[p]) {
      if ok[i].name in PREFERRED {
        var q :| 0 <= q < 3 && PREFERRED[q] == ok[i].name;
        PreferredReveal(q, p);
      }
    }
  }

  lemma OneCellIsBoxed(name: string, pageNumber: int)
    ensures AllBoxed(OneCell(name, pageNumber))
  {
    assert OneCell(name, pageNumber).tables[0].rows[0] != [];
  }

  lemma {:induction false} NothingAlone(ok: seq<Candidate>, m: Mismatch)
    requires forall i :: 0 <= i < |ok| ==> AllBoxed(ok[i])
    ensures !FoundAlone(ok, None, m)
  {
    hide HasCellBoxes, FirstTable;
    forall i | 0 <= i < |ok| && ok[i].name == m.candidate ensures !OwnProblem(ok, None, ok[i], m.kind, m.table) {
      HasFirstTable(ok, ok[i].name);
    }
  }

  lemma LabelIsNotPlain(left: string, right: string)
    ensures !IsPlain(Label(left, right))
  {
    StartsAtJoint(left, right);
  }

  lemma RestIsPlain()
    ensures IsPlain("vs camelot:lattice")
  {
    var rest := "vs camelot:lattice";
    forall i ensures !StartsHere(rest, i) {
      assert forall k :: 0 <= k < |rest| && k != 2 ==> rest[k] != ' ';
    }
  }

  lemma SplitStep(s: string, i: nat)
    requires First(s) == Some(i) && i + 4 <= |s|
    ensures Split(s) == [s[..i]] + Split(s[i + 4..])
  {
  }

  lemma TornLabel()
    ensures First(Label("x: vs", PREFERRED[0])) == Some(2) && Label("x: vs", PREFERRED[0])[6..] == "vs camelot:lattice"
  {
    var whole := Label("x: vs", PREFERRED[0]);
    assert whole == "x: vs vs camelot:lattice";
    assert StartsHere(whole, 2) && !StartsHere(whole, 0) && !StartsHere(whole, 1);
    FirstIs(whole, 2);
  }

  /** There is such a name: an extractor "x" with the flavour " vs". */
  lemma ATornName()
    ensures !Reveals("x: vs", PREFERRED[0])
  {
    var whole := Label("x: vs", PREFERRED[0]);
    hide Split, IsPlain;
    TornLabel();
    RestIsPlain();
    PlainSplit(whole[6..]);
    SplitStep(whole, 2);
    assert |whole[..2]| == 2 && |whole[6..]| == 18 && |PREFERRED[0]| == 15;
  }

  lemma AgreeOnCount(norm: string -> string, a: Candidate, b: Candidate)
    requires Agree(norm, a, b)
    ensures |a.tables| == |b.tables|
  {
  }

  lemma SelectedIsBoxed(norm: string -> string, ok: seq<Candidate>, mismatches: seq<Mismatch>, p: int, i: nat, k: nat)
    requires IsReport(norm, ok, None, mismatches)
    requires 0 <= p < 3 && Eligible(ok, mismatches, true, PREFERRED[p])
    requires i < |ok| && ok[i].name == PREFERRED[p] && k < |ok[i].tables|
    ensures HasCellBoxes(ok[i].tables[k])
  {
    hide HasCellBoxes, FoundInPair, Split, IsPlain;
    if !HasCellBoxes(ok[i].tables[k]) {
      var m := Mismatch(CellBoundary, ok[i].name, k);
      assert OwnProblem(ok, None, ok[i], CellBoundary, k);
      assert FoundAlone(ok, None, m);
      NotBlocked(ok, mismatches, true, PREFERRED[p], m);
      PreferredArePlain(p);
    }
  }
}
