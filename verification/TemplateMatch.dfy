/** Matching a document against a template fingerprint: a weighted score with caps that is
    meant to act as a gate (core/ir/template_fingerprint.py). Scores are exact reals. Text
    normalisation, table parsing and the required-column score are arbitrary functions. */
module TemplateMatch {
  import opened Prelude
  import opened PythonText
  import opened DocumentIR
  import opened TemplateRules

  const KNOWN_TEMPLATE_THRESHOLD := 0.95
  const CAUTION_TEMPLATE_THRESHOLD := 0.80
  const FAIL_CLOSED_MAX_SCORE := 0.79
  const INCOMPLETE_REQUIRED_COLUMNS_MAX_SCORE := 0.94

  datatype Classification = Known | Caution | Unknown

  datatype MatchMode = Exact | ContainsText | Normalized

  datatype Anchor = Anchor(
    id: string, kind: string, text: string, mode: MatchMode,
    scopePage: Option<int>, scopeBlockTypes: seq<string>)

  datatype Table = Table(id: string, anchorId: Option<string>, requiredColumns: seq<string>)

  datatype Fingerprint = Fingerprint(anchors: seq<Anchor>, tables: seq<Table>, fields: seq<Field>)

  /** How texts and tables are read. */
  datatype Reader = Reader(
    normalize: string -> string,
    tableRows: (string, bool) -> seq<seq<string>>,
    columnScore: (string, Anchor, seq<string>, bool, bool) -> real)

  datatype Warning =
    | PagesMissing | AnchorsMissing
    | AnchorUndefined(id: string) | AnchorMissing(id: string)
    | ScopesUnsatisfied
    | TableMissing(id: string) | ColumnsIncomplete(id: string)
    | DocumentWarning(text: string) | BlockNeedsReview(id: string)

  datatype Match = Match(
    score: real, classification: Classification, requiresReview: bool,
    warnings: seq<Warning>, matched: seq<string>, missing: seq<string>)

  // ---- Anchors

  /** `_text_match_score` is 1 or 0; this is when it is 1. */
  ghost predicate TextMatches(reader: Reader, expected: string, actual: string, mode: MatchMode) {
    match mode
    case Exact => expected != "" && expected == actual
    case ContainsText =>
      reader.normalize(expected) != "" && reader.normalize(actual) != ""
        && Contains(reader.normalize(actual), reader.normalize(expected))
    case Normalized =>
      reader.normalize(expected) != "" && reader.normalize(expected) == reader.normalize(actual)
  }

  ghost predicate RowMatches(reader: Reader, row: seq<string>, expected: string, mode: MatchMode) {
    || TextMatches(reader, expected, Join("\t", row), mode)
    || exists cell :: cell in row && TextMatches(reader, expected, cell, mode)
  }

  /** `_scope_page`: page numbers below 1 do not restrict anything. */
  ghost function ScopePage(anchor: Anchor): Option<int> {
    if anchor.scopePage.Some? && anchor.scopePage.value >= 1 then anchor.scopePage else None
  }

  ghost predicate InScope(anchor: Anchor, block: Block) {
    && (anchor.kind == "table_header" ==> block.kind == "table")
    && (ScopePage(anchor).Some? ==> block.sourcePage == ScopePage(anchor))
    && (anchor.scopeBlockTypes == [] || block.kind in anchor.scopeBlockTypes)
  }

  ghost predicate BlockMatches(reader: Reader, xlsx: bool, anchor: Anchor, block: Block) {
    && InScope(anchor, block)
    && if anchor.kind == "table_header"
       then exists row :: row in reader.tableRows(block.text, xlsx) && RowMatches(reader, row, anchor.text, anchor.mode)
       else TextMatches(reader, anchor.text, block.text, anchor.mode)
  }

  ghost predicate MatchesAmong(reader: Reader, xlsx: bool, anchor: Anchor, blocks: seq<Block>) {
    exists block :: block in blocks && BlockMatches(reader, xlsx, anchor, block)
  }

  ghost predicate Matches(reader: Reader, doc: Document, anchor: Anchor) {
    MatchesAmong(reader, doc.sourceType == "xlsx", anchor, doc.blocks)
  }

  ghost function ScoreOf(matches: bool): real {
    if matches then 1.0 else 0.0
  }

  /** `_text_match_score` */
  method TextScore(reader: Reader, expected: string, actual: string, mode: MatchMode) returns (score: real)
    ensures score == ScoreOf(TextMatches(reader, expected, actual, mode))
  {
    if mode == Exact {
      return if expected != "" && actual != "" && expected == actual then 1.0 else 0.0;
    }
    var normalizedExpected, normalizedActual := reader.normalize(expected), reader.normalize(actual);
    if normalizedExpected == "" || normalizedActual == "" {
      return 0.0;
    }
    if mode == ContainsText {
      return if Contains(normalizedActual, normalizedExpected) then 1.0 else 0.0;
    }
    score := if normalizedExpected == normalizedActual then 1.0 else 0.0;
  }

  /** `_block_matches_anchor_scope` */
  method IsInScope(anchor: Anchor, block: Block) returns (inScope: bool)
    ensures inScope == InScope(anchor, block)
  {
    if anchor.kind == "table_header" && block.kind != "table" {
      return false;
    }
    if anchor.scopePage.Some? && anchor.scopePage.value >= 1 && block.sourcePage != anchor.scopePage {
      return false;
    }
    inScope := |anchor.scopeBlockTypes| == 0 || block.kind in anchor.scopeBlockTypes;
  }

  /** `_table_anchor_match_score`: the best over the rows of the block and over their cells. */
  method TableScoreOf(reader: Reader, rows: seq<seq<string>>, expected: string, mode: MatchMode) returns (score: real)
    ensures score == ScoreOf(exists row :: row in rows && RowMatches(reader, row, expected, mode))
  {
    hide TextMatches, Join;
    score := 0.0;
    for i := 0 to |rows|
      invariant score == ScoreOf(exists row :: row in rows[..i] && RowMatches(reader, row, expected, mode))
    {
      assert rows[..i + 1] == rows[..i] + [rows[i]];
      var best := TextScore(reader, expected, Join("\t", rows[i]), mode);
      for k := 0 to |rows[i]|
        invariant best == ScoreOf(TextMatches(reader, expected, Join("\t", rows[i]), mode)
          || exists cell :: cell in rows[i][..k] && TextMatches(reader, expected, cell, mode))
      {
        assert rows[i][..k + 1] == rows[i][..k] + [rows[i][k]];
        var cellScore := TextScore(reader, expected, rows[i][k], mode);
        if cellScore > best {
          best := cellScore;
        }
      }
      assert rows[i][..|rows[i]|] == rows[i];
      assert best == ScoreOf(RowMatches(reader, rows[i], expected, mode));
      if best > score {
        score := best;
      }
    }
    assert rows[..|rows|] == rows;
  }

  /** Whether a block is in the anchor's scope and its `_anchor_block_match_score`. */
  method BlockScore(reader: Reader, xlsx: bool, anchor: Anchor, block: Block) returns (score: real)
    ensures score == ScoreOf(BlockMatches(reader, xlsx, anchor, block))
  {
    hide TextMatches, RowMatches;
    var inScope := IsInScope(anchor, block);
    if !inScope {
      return 0.0;
    }
    if anchor.kind == "table_header" {
      score := TableScoreOf(reader, reader.tableRows(block.text, xlsx), anchor.text, anchor.mode);
    } else {
      score := TextScore(reader, anchor.text, block.text, anchor.mode);
    }
  }

  /** `_best_anchor_match_score`: the maximum over the matching blocks, 0 without one. */
  method BestAnchorMatchScore(reader: Reader, doc: Document, anchor: Anchor) returns (score: real)
    ensures score == ScoreOf(Matches(reader, doc, anchor))
  {
    hide BlockMatches;
    score := 0.0;
    for i := 0 to |doc.blocks|
      invariant score == ScoreOf(MatchesAmong(reader, doc.sourceType == "xlsx", anchor, doc.blocks[..i]))
    {
      var block := doc.blocks[i];
      assert doc.blocks[..i + 1] == doc.blocks[..i] + [block];
      assert block in doc.blocks[..i + 1];
      var blockScore := BlockScore(reader, doc.sourceType == "xlsx", anchor, block);
      if blockScore > score {
        score := blockScore;
      }
    }
    assert doc.blocks[..|doc.blocks|] == doc.blocks;
  }

  ghost function NamedAnchor(id: Option<string>): bool {
    id.Some? && !IsBlank(id.value)
  }

  /** `_required_anchor_ids` */
  ghost function RequiredIds(tpl: Fingerprint): set<string> {
    (set t | t in tpl.tables && NamedAnchor(t.anchorId) :: t.anchorId.value)
    + set f | f in tpl.fields && f.required && NamedAnchor(f.sourceAnchor) :: f.sourceAnchor.value
  }

  /** `_optional_anchor_ids` */
  ghost function OptionalIds(tpl: Fingerprint): set<string> {
    (set f | f in tpl.fields && !f.required && NamedAnchor(f.sourceAnchor) :: f.sourceAnchor.value) - RequiredIds(tpl)
  }

  ghost function DefinedIds(tpl: Fingerprint): set<string> {
    set a | a in tpl.anchors && a.id != "" :: a.id
  }

  ghost predicate IsRequired(tpl: Fingerprint, anchor: Anchor) {
    || anchor.id in RequiredIds(tpl)
    || (anchor.id !in OptionalIds(tpl) && (anchor.kind == "heading" || anchor.kind == "table_header"))
  }

  /** `_required_anchor_ids` and `_optional_anchor_ids` */
  method CollectIds(tpl: Fingerprint) returns (required: set<string>, optional: set<string>)
    ensures required == RequiredIds(tpl) && optional == OptionalIds(tpl)
  {
    hide IsBlank;
    required, optional := {}, {};
    for i := 0 to |tpl.tables|
      invariant forall id :: id in required <==>
        exists t :: t in tpl.tables[..i] && NamedAnchor(t.anchorId) && t.anchorId.value == id
    {
      assert tpl.tables[..i + 1] == tpl.tables[..i] + [tpl.tables[i]];
      var id := tpl.tables[i].anchorId;
      if id.Some? && !IsBlank(id.value) {
        required := required + {id.value};
      }
    }
    assert tpl.tables[..|tpl.tables|] == tpl.tables;
    ghost var ofTables := required;
    ghost var others: set<string> := {};
    for i := 0 to |tpl.fields|
      invariant forall id :: id in required <==>
        id in ofTables
        || exists f :: f in tpl.fields[..i] && f.required && NamedAnchor(f.sourceAnchor) && f.sourceAnchor.value == id
      invariant forall id :: id in optional <==>
        exists f :: f in tpl.fields[..i] && !f.required && NamedAnchor(f.sourceAnchor) && f.sourceAnchor.value == id
    {
      assert tpl.fields[..i + 1] == tpl.fields[..i] + [tpl.fields[i]];
      var field := tpl.fields[i];
      if field.sourceAnchor.Some? && !IsBlank(field.sourceAnchor.value) {
        if field.required {
          required := required + {field.sourceAnchor.value};
        } else {
          optional := optional + {field.sourceAnchor.value};
        }
      }
    }
    assert tpl.fields[..|tpl.fields|] == tpl.fields;
    optional := optional - required;
  }

  /** `_anchor_is_required` */
  method AnchorIsRequired(tpl: Fingerprint, anchor: Anchor, required: set<string>, optional: set<string>)
    returns (isRequired: bool)
    requires required == RequiredIds(tpl) && optional == OptionalIds(tpl)
    ensures isRequired == IsRequired(tpl, anchor)
  {
    if anchor.id in required {
      return true;
    }
    if anchor.id in optional {
      return false;
    }
    isRequired := anchor.kind in {"heading", "table_header"};
  }

  // ---- Tables

  /** `anchors_by_id`: of anchors with the same id the last one counts. */
  ghost function AnchorById(anchors: seq<Anchor>, id: string): Option<Anchor> {
    if anchors == [] then None
    else if anchors[|anchors| - 1].id == id then Some(anchors[|anchors| - 1])
    else AnchorById(anchors[..|anchors| - 1], id)
  }

  ghost function TableAnchor(tpl: Fingerprint, table: Table): Option<Anchor> {
    AnchorById(tpl.anchors, if table.anchorId.Some? then table.anchorId.value else "")
  }

  ghost predicate TableBlock(reader: Reader, doc: Document, tpl: Fingerprint, table: Table, block: Block) {
    && block in doc.blocks
    && TableAnchor(tpl, table).Some?
    && BlockMatches(reader, doc.sourceType == "xlsx", TableAnchor(tpl, table).value, block)
  }

  ghost predicate TableFound(reader: Reader, doc: Document, tpl: Fingerprint, table: Table) {
    exists block :: block in doc.blocks && TableBlock(reader, doc, tpl, table, block)
  }

  ghost function ColumnScore(reader: Reader, doc: Document, tpl: Fingerprint, table: Table, block: Block): real
    requires TableAnchor(tpl, table).Some?
  {
    reader.columnScore(block.text, TableAnchor(tpl, table).value, table.requiredColumns, doc.sourceType == "xlsx",
      doc.sourceType != "pdf")
  }

  /** Some block of the table shows all the required columns. */
  ghost predicate ColumnsFound(reader: Reader, doc: Document, tpl: Fingerprint, table: Table) {
    || table.requiredColumns == []
    || exists block :: block in doc.blocks && TableBlock(reader, doc, tpl, table, block)
                       && ColumnScore(reader, doc, tpl, table, block) >= 1.0
  }

  ghost function BestColumnScore(reader: Reader, doc: Document, tpl: Fingerprint, table: Table,
      blocks: seq<Block>): (best: real)
    requires TableAnchor(tpl, table).Some?
    ensures best >= 0.0
    ensures best >= 1.0 <==>
      exists block :: block in blocks && TableBlock(reader, doc, tpl, table, block)
                      && ColumnScore(reader, doc, tpl, table, block) >= 1.0
  {
    if blocks == [] then 0.0
    else
      var init, last := blocks[..|blocks| - 1], blocks[|blocks| - 1];
      assert blocks == init + [last];
      var before := BestColumnScore(reader, doc, tpl, table, init);
      if TableBlock(reader, doc, tpl, table, last) && ColumnScore(reader, doc, tpl, table, last) > before
      then ColumnScore(reader, doc, tpl, table, last) else before
  }

  ghost function OneTableScore(reader: Reader, doc: Document, tpl: Fingerprint, table: Table): real {
    if !TableFound(reader, doc, tpl, table) then 0.0
    else if table.requiredColumns == [] then 1.0
    else BestColumnScore(reader, doc, tpl, table, doc.blocks)
  }

  ghost function SumOfTableScores(reader: Reader, doc: Document, tpl: Fingerprint, tables: seq<Table>): real {
    if tables == [] then 0.0
    else SumOfTableScores(reader, doc, tpl, tables[..|tables| - 1]) + OneTableScore(reader, doc, tpl, tables[|tables| - 1])
  }

  ghost function TableScore(reader: Reader, doc: Document, tpl: Fingerprint): real {
    if tpl.tables == [] then 1.0 else SumOfTableScores(reader, doc, tpl, tpl.tables) / |tpl.tables| as real
  }

  ghost predicate OneTableWarns(reader: Reader, doc: Document, tpl: Fingerprint, t: Table, w: Warning) {
    || (w == TableMissing(DisplayId(t.id)) && !TableFound(reader, doc, tpl, t))
    || (w == ColumnsIncomplete(DisplayId(t.id)) && TableFound(reader, doc, tpl, t) && !ColumnsFound(reader, doc, tpl, t))
  }

  ghost predicate TableWarns(reader: Reader, doc: Document, tpl: Fingerprint, tables: seq<Table>, w: Warning) {
    exists t :: t in tables && OneTableWarns(reader, doc, tpl, t, w)
  }

  lemma TableWarnsStep(reader: Reader, doc: Document, tpl: Fingerprint, tables: seq<Table>, table: Table, w: Warning)
    ensures TableWarns(reader, doc, tpl, tables + [table], w) <==>
      (TableWarns(reader, doc, tpl, tables, w) || OneTableWarns(reader, doc, tpl, table, w))
  {
    assert table in tables + [table];
  }

  ghost predicate CapBelowKnown(reader: Reader, doc: Document, tpl: Fingerprint, tables: seq<Table>) {
    exists t :: t in tables && TableFound(reader, doc, tpl, t) && !ColumnsFound(reader, doc, tpl, t)
  }

  /** The dictionary of the anchors by their id. */
  method AnchorsById(anchors: seq<Anchor>) returns (byId: map<string, Anchor>)
    ensures forall id :: AnchorById(anchors, id) == if id in byId then Some(byId[id]) else None
  {
    byId := map[];
    for i := 0 to |anchors|
      invariant forall id :: AnchorById(anchors[..i], id) == if id in byId then Some(byId[id]) else None
    {
      assert anchors[..i + 1][..i] == anchors[..i];
      byId := byId[anchors[i].id := anchors[i]];
    }
    assert anchors[..|anchors|] == anchors;
  }

  /** The blocks of a table: whether there is one, and the best column score among them. */
  method ScanTable(reader: Reader, doc: Document, tpl: Fingerprint, table: Table, anchor: Anchor)
    returns (found: bool, best: real)
    requires TableAnchor(tpl, table) == Some(anchor)
    ensures found == TableFound(reader, doc, tpl, table)
    ensures best == BestColumnScore(reader, doc, tpl, table, doc.blocks)
  {
    hide BlockMatches;
    found, best := false, 0.0;
    for i := 0 to |doc.blocks|
      invariant found <==> exists block :: block in doc.blocks[..i] && TableBlock(reader, doc, tpl, table, block)
      invariant best == BestColumnScore(reader, doc, tpl, table, doc.blocks[..i])
    {
      var block := doc.blocks[i];
      assert doc.blocks[..i + 1] == doc.blocks[..i] + [block] && doc.blocks[..i + 1][..i] == doc.blocks[..i];
      var score := BlockScore(reader, doc.sourceType == "xlsx", anchor, block);
      assert block in doc.blocks[..i + 1];
      assert score > 0.0 <==> TableBlock(reader, doc, tpl, table, block);
      if score > 0.0 {
        found := true;
        var columns := reader.columnScore(block.text, anchor, table.requiredColumns, doc.sourceType == "xlsx",
          doc.sourceType != "pdf");
        if columns > best {
          best := columns;
        }
      }
    }
    assert doc.blocks[..|doc.blocks|] == doc.blocks;
  }

  lemma BestMeansFound(reader: Reader, doc: Document, tpl: Fingerprint, table: Table)
    requires TableAnchor(tpl, table).Some? && table.requiredColumns != []
    ensures BestColumnScore(reader, doc, tpl, table, doc.blocks) >= 1.0 <==> ColumnsFound(reader, doc, tpl, table)
  {
  }

  lemma NoColumnsFound(reader: Reader, doc: Document, tpl: Fingerprint, table: Table)
    requires table.requiredColumns == []
    ensures ColumnsFound(reader, doc, tpl, table)
  {
  }

  lemma NoAnchorNoTable(reader: Reader, doc: Document, tpl: Fingerprint, table: Table)
    requires TableAnchor(tpl, table) == None
    ensures !TableFound(reader, doc, tpl, table)
  {
  }

  /** `_table_score` */
  method ScoreTables(reader: Reader, doc: Document, tpl: Fingerprint) returns (score: real, capBelowKnown: bool,
      warnings: seq<Warning>)
    ensures score == TableScore(reader, doc, tpl)
    ensures capBelowKnown <==> CapBelowKnown(reader, doc, tpl, tpl.tables)
    ensures forall w :: w in warnings <==> TableWarns(reader, doc, tpl, tpl.tables, w)
  {
    hide TableBlock, ColumnsFound, TableFound, AnchorById;
    warnings := [];
    capBelowKnown := false;
    if tpl.tables == [] {
      return 1.0, false, [];
    }
    var byId := AnchorsById(tpl.anchors);
    var sum := 0.0;
    for i := 0 to |tpl.tables|
      invariant sum == SumOfTableScores(reader, doc, tpl, tpl.tables[..i])
      invariant capBelowKnown <==> CapBelowKnown(reader, doc, tpl, tpl.tables[..i])
      invariant forall w :: w in warnings <==> TableWarns(reader, doc, tpl, tpl.tables[..i], w)
    {
      var table := tpl.tables[i];
      assert tpl.tables[..i + 1] == tpl.tables[..i] + [table];
      forall w { TableWarnsStep(reader, doc, tpl, tpl.tables[..i], table, w); }
      var anchorId := if table.anchorId == None then "" else table.anchorId.value;
      var found, best := false, 0.0;
      if anchorId in byId {
        found, best := ScanTable(reader, doc, tpl, table, byId[anchorId]);
        if table.requiredColumns != [] { BestMeansFound(reader, doc, tpl, table); }
      } else {
        NoAnchorNoTable(reader, doc, tpl, table);
      }
      if !found {
        warnings := warnings + [TableMissing(DisplayId(table.id))];
      } else if table.requiredColumns == [] {
        NoColumnsFound(reader, doc, tpl, table);
        sum := sum + 1.0;
      } else {
        if best < 1.0 {
          warnings := warnings + [ColumnsIncomplete(DisplayId(table.id))];
          capBelowKnown := true;
        }
        sum := sum + best;
      }
    }
    assert tpl.tables[..|tpl.tables|] == tpl.tables;
    score := sum / |tpl.tables| as real;
  }

  // ---- The whole score

  /** Anchors whose score counts: required ones, and optional ones that match. */
  ghost predicate Scored(reader: Reader, doc: Document, tpl: Fingerprint, anchor: Anchor) {
    IsRequired(tpl, anchor) || Matches(reader, doc, anchor)
  }

  ghost function ScoredCount(reader: Reader, doc: Document, tpl: Fingerprint, anchors: seq<Anchor>): nat {
    if anchors == [] then 0
    else
      ScoredCount(reader, doc, tpl, anchors[..|anchors| - 1])
      + if Scored(reader, doc, tpl, anchors[|anchors| - 1]) then 1 else 0
  }

  ghost function MatchedCount(reader: Reader, doc: Document, anchors: seq<Anchor>): nat {
    if anchors == [] then 0
    else
      MatchedCount(reader, doc, anchors[..|anchors| - 1])
      + if Matches(reader, doc, anchors[|anchors| - 1]) then 1 else 0
  }

  ghost function AnchorScore(reader: Reader, doc: Document, tpl: Fingerprint): real {
    var scored := ScoredCount(reader, doc, tpl, tpl.anchors);
    if scored == 0 then 0.0 else MatchedCount(reader, doc, tpl.anchors) as real / scored as real
  }

  ghost function ScopedPages(tpl: Fingerprint): set<int> {
    set a | a in tpl.anchors && IsRequired(tpl, a) && ScopePage(a).Some? :: ScopePage(a).value
  }

  ghost function PageNumbers(doc: Document): set<int> {
    set p | p in doc.pages && p.number.Some? :: p.number.value
  }

  ghost function PageScore(doc: Document, tpl: Fingerprint): real {
    if ScopedPages(tpl) == {} then 1.0
    else |ScopedPages(tpl) * PageNumbers(doc)| as real / |ScopedPages(tpl)| as real
  }

  ghost function Bounded(score: real): real {
    if score < 0.0 then 0.0 else if score > 1.0 then 1.0 else score
  }

  ghost function Min(a: real, b: real): real {
    if a <= b then a else b
  }

  ghost predicate FailClosed(reader: Reader, doc: Document, tpl: Fingerprint) {
    || doc.pages == []
    || tpl.anchors == []
    || !(RequiredIds(tpl) <= DefinedIds(tpl))
    || (exists a :: a in tpl.anchors && IsRequired(tpl, a) && !Matches(reader, doc, a))
    || !(ScopedPages(tpl) <= PageNumbers(doc))
  }

  ghost function Score(reader: Reader, doc: Document, tpl: Fingerprint): real {
    var weighted := Bounded(AnchorScore(reader, doc, tpl)) * 0.60 + Bounded(PageScore(doc, tpl)) * 0.20
      + Bounded(TableScore(reader, doc, tpl)) * 0.20;
    if FailClosed(reader, doc, tpl) then Bounded(Min(weighted, FAIL_CLOSED_MAX_SCORE))
    else if CapBelowKnown(reader, doc, tpl, tpl.tables)
      then Bounded(Min(weighted, INCOMPLETE_REQUIRED_COLUMNS_MAX_SCORE))
    else Bounded(weighted)
  }

  ghost function Classify(score: real): Classification {
    if Bounded(score) >= KNOWN_TEMPLATE_THRESHOLD then Known
    else if Bounded(score) >= CAUTION_TEMPLATE_THRESHOLD then Caution
    else Unknown
  }

  ghost predicate AnchorWarns(reader: Reader, doc: Document, tpl: Fingerprint, w: Warning) {
    || (w == PagesMissing && doc.pages == [])
    || (w == AnchorsMissing && tpl.anchors == [])
    || (w.AnchorUndefined? && w.id in RequiredIds(tpl) - DefinedIds(tpl))
    || (w.AnchorMissing?
        && exists a :: a in tpl.anchors && w.id == DisplayId(a.id) && IsRequired(tpl, a) && !Matches(reader, doc, a))
    || (w == ScopesUnsatisfied && !(ScopedPages(tpl) <= PageNumbers(doc)))
  }

  ghost predicate DocumentWarns(doc: Document, w: Warning) {
    || (w.DocumentWarning? && (w.text in doc.warnings || exists b :: b in doc.blocks && w.text in b.review.warnings))
    || (w.BlockNeedsReview?
        && exists b :: b in doc.blocks && b.id == w.id && b.review.requiresReview && b.review.warnings == [])
  }

  ghost predicate Warns(reader: Reader, doc: Document, tpl: Fingerprint, w: Warning) {
    AnchorWarns(reader, doc, tpl, w) || TableWarns(reader, doc, tpl, tpl.tables, w) || DocumentWarns(doc, w)
  }

  /** What the score is meant to guarantee, said without scores: nothing required is absent
      from the document or from the template, at least one anchor is found, every table is
      found with its columns, and the document itself raises no review. */
  ghost predicate Gate(reader: Reader, doc: Document, tpl: Fingerprint) {
    && doc.pages != []
    && RequiredIds(tpl) <= DefinedIds(tpl)
    && (forall a :: a in tpl.anchors && IsRequired(tpl, a) ==> Matches(reader, doc, a))
    && (exists a :: a in tpl.anchors && Matches(reader, doc, a))
    && ScopedPages(tpl) <= PageNumbers(doc)
    && (forall t :: t in tpl.tables ==> TableFound(reader, doc, tpl, t) && ColumnsFound(reader, doc, tpl, t))
    && doc.warnings == []
    && (forall b :: b in doc.blocks ==> b.review.warnings == [] && !b.review.requiresReview)
  }

  /** `_bounded_score` */
  method BoundScore(score: real) returns (bounded: real)
    ensures bounded == Bounded(score)
  {
    bounded := score;
    if bounded < 0.0 {
      bounded := 0.0;
    }
    if bounded > 1.0 {
      bounded := 1.0;
    }
  }

  /** `_weighted_average` of the three scores */
  method WeightedAverage(anchorScore: real, pageScore: real, tableScore: real) returns (average: real)
    ensures average == Bounded(anchorScore) * 0.60 + Bounded(pageScore) * 0.20 + Bounded(tableScore) * 0.20
  {
    var anchors := BoundScore(anchorScore);
    var pages := BoundScore(pageScore);
    var tables := BoundScore(tableScore);
    var total := 0.60 + 0.20 + 0.20;
    average := (anchors * 0.60 + pages * 0.20 + tables * 0.20) / total;
  }

  /** `classify_template_match` */
  method ClassifyMatch(score: real) returns (classification: Classification)
    ensures classification == Classify(score)
  {
    var bounded := BoundScore(score);
    if bounded >= 0.95 {
      return Known;
    }
    classification := if bounded >= 0.80 then Caution else Unknown;
  }

  method MatchTemplateFingerprint(reader: Reader, doc: Document, tpl: Fingerprint) returns (m: Match)
    ensures m.score == Score(reader, doc, tpl) && m.classification == Classify(m.score)
    ensures m.requiresReview <==> m.warnings != [] || !m.classification.Known?
    ensures Distinct(m.warnings) && forall w :: w in m.warnings <==> Warns(reader, doc, tpl, w)
    ensures forall id :: id in m.matched <==> AnchorFound(reader, doc, tpl.anchors, id)
    ensures forall id :: id in m.missing <==>
      id in RequiredIds(tpl) - DefinedIds(tpl) || AnchorLacking(reader, doc, tpl.anchors, id)
    ensures !m.requiresReview <==> Gate(reader, doc, tpl)
    ensures !m.requiresReview ==> m.score == 1.0
    ensures FailClosed(reader, doc, tpl) ==> m.classification.Unknown?
    ensures m.classification.Caution? ==> m.warnings != []
  {
    hide Gate, Matches, AnchorScore, PageScore, TableScore;
    var anchorScore, pageScore, matched, missing, failClosed, anchorWarnings := ScoreAnchorsAndPages(reader, doc, tpl);
    var tableScore, capBelowKnown, tableWarnings := ScoreTables(reader, doc, tpl);
    var documentWarnings := DocumentReviewWarnings(doc);
    var warnings := anchorWarnings + tableWarnings + documentWarnings;
    assert forall w :: w in warnings <==> Warns(reader, doc, tpl, w);
    assert warnings == [] <==> Quiet(reader, doc, tpl) by {
      if warnings != [] { assert Warns(reader, doc, tpl, warnings[0]); }
    }
    var score := WeightedAverage(anchorScore, pageScore, tableScore);
    if failClosed && score > 0.79 {
      score := 0.79;
    } else if !failClosed && capBelowKnown && score > 0.94 {
      score := 0.94;
    }
    score := BoundScore(score);
    var classification := ClassifyMatch(score);
    m := Match(score, classification, warnings != [] || !classification.Known?, Dedupe(warnings), matched, missing);
    GateIsNoReview(reader, doc, tpl);
  }

  method ScorePages(doc: Document, tpl: Fingerprint, required: set<string>, optional: set<string>)
    returns (score: real, satisfied: bool)
    requires required == RequiredIds(tpl) && optional == OptionalIds(tpl)
    ensures score == PageScore(doc, tpl)
    ensures satisfied <==> ScopedPages(tpl) <= PageNumbers(doc)
  {
    hide IsRequired;
    var scoped: set<int> := {};
    for i := 0 to |tpl.anchors|
      invariant forall n :: n in scoped <==>
        exists a :: a in tpl.anchors[..i] && IsRequired(tpl, a) && ScopePage(a) == Some(n)
    {
      var anchor := tpl.anchors[i];
      assert tpl.anchors[..i + 1] == tpl.anchors[..i] + [anchor];
      var isRequired := AnchorIsRequired(tpl, anchor, required, optional);
      if isRequired && anchor.scopePage.Some? && anchor.scopePage.value >= 1 {
        scoped := scoped + {anchor.scopePage.value};
      }
    }
    assert tpl.anchors[..|tpl.anchors|] == tpl.anchors;
    forall n ensures n in scoped <==> n in ScopedPages(tpl) {
      if n in scoped {
        var a :| a in tpl.anchors && IsRequired(tpl, a) && ScopePage(a) == Some(n);
        assert ScopePage(a).value in ScopedPages(tpl);
      }
    }
    assert scoped == ScopedPages(tpl);
    if scoped == {} {
      return 1.0, true;
    }
    var present := set n | n in scoped && exists p :: p in doc.pages && p.number == Some(n);
    assert present == scoped * PageNumbers(doc);
    SubsetSize(present, scoped);
    assert scoped <= PageNumbers(doc) ==> present == scoped;
    score := |present| as real / |scoped| as real;
    assert score == PageScore(doc, tpl);
    satisfied := |present| == |scoped|;
  }

  /** The part of the match that looks at pages and anchors. */
  method ScoreAnchorsAndPages(reader: Reader, doc: Document, tpl: Fingerprint)
    returns (anchorScore: real, pageScore: real, matched: seq<string>, missing: seq<string>, failClosed: bool,
      warnings: seq<Warning>)
    ensures anchorScore == AnchorScore(reader, doc, tpl) && pageScore == PageScore(doc, tpl)
    ensures forall id :: id in matched <==> AnchorFound(reader, doc, tpl.anchors, id)
    ensures forall id :: id in missing <==>
      id in RequiredIds(tpl) - DefinedIds(tpl) || AnchorLacking(reader, doc, tpl.anchors, id)
    ensures failClosed <==> FailClosed(reader, doc, tpl)
    ensures forall w :: w in warnings <==> AnchorWarns(reader, doc, tpl, w)
  {
    hide AnchorScore, PageScore, Matches, AnchorFound, AnchorLacking;
    warnings, failClosed := [], false;
    if doc.pages == [] {
      warnings := warnings + [PagesMissing];
      failClosed := true;
    }
    if tpl.anchors == [] {
      warnings := warnings + [AnchorsMissing];
      failClosed := true;
    }
    var required, optional := CollectIds(tpl);
    var undefined, undefinedWarnings := UndefinedAnchors(tpl, required);
    var lacking, lackWarnings;
    anchorScore, matched, missing, lacking, lackWarnings := ScoreAnchors(reader, doc, tpl, required, optional);
    missing := undefined + missing;
    warnings := warnings + undefinedWarnings + lackWarnings;
    failClosed := failClosed || undefined != [] || lacking;
    var scopesSatisfied;
    pageScore, scopesSatisfied := ScorePages(doc, tpl, required, optional);
    if !scopesSatisfied {
      warnings := warnings + [ScopesUnsatisfied];
      failClosed := true;
    }
    assert forall w :: w in warnings <==> AnchorWarns(reader, doc, tpl, w);
    assert failClosed <==> FailClosed(reader, doc, tpl) by {
      FirstIsMember(undefined);
      assert undefined == [] ==> forall id :: id in RequiredIds(tpl) && id !in DefinedIds(tpl) ==> id in undefined;
    }
  }

  ghost predicate AnchorFound(reader: Reader, doc: Document, anchors: seq<Anchor>, id: string) {
    id != "" && exists a :: a in anchors && a.id == id && Matches(reader, doc, a)
  }

  ghost predicate AnchorLacking(reader: Reader, doc: Document, anchors: seq<Anchor>, id: string) {
    id != "" && exists a :: a in anchors && a.id == id && !Matches(reader, doc, a)
  }

  ghost predicate RequiredLacking(reader: Reader, doc: Document, tpl: Fingerprint, anchors: seq<Anchor>) {
    exists a :: a in anchors && IsRequired(tpl, a) && !Matches(reader, doc, a)
  }

  ghost predicate LackWarned(reader: Reader, doc: Document, tpl: Fingerprint, anchors: seq<Anchor>, w: Warning) {
    w.AnchorMissing?
    && exists a :: a in anchors && w.id == DisplayId(a.id) && IsRequired(tpl, a) && !Matches(reader, doc, a)
  }

  /** Required anchors that the template does not define, in no particular order. */
  method UndefinedAnchors(tpl: Fingerprint, required: set<string>)
    returns (missing: seq<string>, warnings: seq<Warning>)
    requires required == RequiredIds(tpl)
    ensures forall id :: id in missing <==> id in RequiredIds(tpl) - DefinedIds(tpl)
    ensures forall w :: w in warnings <==> w.AnchorUndefined? && w.id in RequiredIds(tpl) - DefinedIds(tpl)
  {
    missing, warnings := [], [];
    var defined := set a | a in tpl.anchors && a.id != "" :: a.id;
    var todo := required - defined;
    while todo != {}
      invariant todo <= RequiredIds(tpl) - DefinedIds(tpl)
      invariant forall id :: id in missing <==> id in RequiredIds(tpl) - DefinedIds(tpl) - todo
      invariant forall w :: w in warnings <==> w.AnchorUndefined? && w.id in RequiredIds(tpl) - DefinedIds(tpl) - todo
      decreases todo
    {
      var id :| id in todo;
      missing := missing + [id];
      warnings := warnings + [AnchorUndefined(id)];
      todo := todo - {id};
    }
  }

  /** The loop over the template's anchors. */
  method ScoreAnchors(reader: Reader, doc: Document, tpl: Fingerprint, required: set<string>, optional: set<string>)
    returns (score: real, matched: seq<string>, missing: seq<string>, lacking: bool, warnings: seq<Warning>)
    requires required == RequiredIds(tpl) && optional == OptionalIds(tpl)
    ensures score == AnchorScore(reader, doc, tpl)
    ensures forall id :: id in matched <==> AnchorFound(reader, doc, tpl.anchors, id)
    ensures forall id :: id in missing <==> AnchorLacking(reader, doc, tpl.anchors, id)
    ensures lacking <==> RequiredLacking(reader, doc, tpl, tpl.anchors)
    ensures forall w :: w in warnings <==> LackWarned(reader, doc, tpl, tpl.anchors, w)
  {
    hide AnchorFound, AnchorLacking, RequiredLacking, LackWarned, Matches;
    warnings, lacking := [], false;
    matched, missing := [], [];
    NoAnchors(reader, doc, tpl);
    var sum := 0.0;
    var count := 0;
    for i := 0 to |tpl.anchors|
      invariant sum == MatchedCount(reader, doc, tpl.anchors[..i]) as real
      invariant count == ScoredCount(reader, doc, tpl, tpl.anchors[..i])
      invariant forall id :: id in matched <==> AnchorFound(reader, doc, tpl.anchors[..i], id)
      invariant forall id :: id in missing <==> AnchorLacking(reader, doc, tpl.anchors[..i], id)
      invariant lacking <==> RequiredLacking(reader, doc, tpl, tpl.anchors[..i])
      invariant forall w :: w in warnings <==> LackWarned(reader, doc, tpl, tpl.anchors[..i], w)
    {
      var anchor := tpl.anchors[i];
      assert tpl.anchors[..i + 1] == tpl.anchors[..i] + [anchor];
      AnchorStep(reader, doc, tpl, tpl.anchors[..i], anchor);
      var matchScore := BestAnchorMatchScore(reader, doc, anchor);
      var isRequired := AnchorIsRequired(tpl, anchor, required, optional);
      if isRequired || matchScore > 0.0 {
        sum := sum + matchScore;
        count := count + 1;
      }
      if matchScore > 0.0 {
        if anchor.id != "" { matched := matched + [anchor.id]; }
      } else {
        if anchor.id != "" { missing := missing + [anchor.id]; }
        if isRequired {
          warnings := warnings + [AnchorMissing(DisplayId(anchor.id))];
          lacking := true;
        }
      }
    }
    assert tpl.anchors[..|tpl.anchors|] == tpl.anchors;
    score := if count == 0 then 0.0 else sum / count as real;
  }

  lemma NoAnchors(reader: Reader, doc: Document, tpl: Fingerprint)
    ensures !RequiredLacking(reader, doc, tpl, [])
    ensures forall id :: !AnchorFound(reader, doc, [], id) && !AnchorLacking(reader, doc, [], id)
    ensures forall w :: !LackWarned(reader, doc, tpl, [], w)
  {
  }

  lemma AnchorStep(reader: Reader, doc: Document, tpl: Fingerprint, anchors: seq<Anchor>, a: Anchor)
    ensures forall id :: AnchorFound(reader, doc, anchors + [a], id) <==>
      AnchorFound(reader, doc, anchors, id) || (id != "" && a.id == id && Matches(reader, doc, a))
    ensures forall id :: AnchorLacking(reader, doc, anchors + [a], id) <==>
      AnchorLacking(reader, doc, anchors, id) || (id != "" && a.id == id && !Matches(reader, doc, a))
    ensures RequiredLacking(reader, doc, tpl, anchors + [a]) <==>
      RequiredLacking(reader, doc, tpl, anchors) || (IsRequired(tpl, a) && !Matches(reader, doc, a))
    ensures forall w :: LackWarned(reader, doc, tpl, anchors + [a], w) <==>
      LackWarned(reader, doc, tpl, anchors, w)
      || (w == AnchorMissing(DisplayId(a.id)) && IsRequired(tpl, a) && !Matches(reader, doc, a))
  {
    hide Matches;
  }

  /** `_document_ir_review_warnings` */
  method DocumentReviewWarnings(doc: Document) returns (warnings: seq<Warning>)
    ensures forall w :: w in warnings <==> DocumentWarns(doc, w)
  {
    warnings := seq(|doc.warnings|, i requires 0 <= i < |doc.warnings| => DocumentWarning(doc.warnings[i]));
    assert forall w :: w in warnings <==> w.DocumentWarning? && w.text in doc.warnings by {
      assert forall i :: 0 <= i < |doc.warnings| ==> warnings[i] == DocumentWarning(doc.warnings[i]);
    }
    for i := 0 to |doc.blocks|
      invariant forall w :: w in warnings <==> DocumentWarns(doc.(blocks := doc.blocks[..i]), w)
    {
      var block := doc.blocks[i];
      assert doc.blocks[..i + 1] == doc.blocks[..i] + [block];
      if block.review.warnings != [] {
        var more := seq(|block.review.warnings|,
          k requires 0 <= k < |block.review.warnings| => DocumentWarning(block.review.warnings[k]));
        assert forall k :: 0 <= k < |more| ==> more[k] == DocumentWarning(block.review.warnings[k]);
        assert forall w :: w in more <==> w.DocumentWarning? && w.text in block.review.warnings;
        warnings := warnings + more;
      } else if block.review.requiresReview {
        warnings := warnings + [BlockNeedsReview(block.id)];
      }
    }
    assert doc.blocks[..|doc.blocks|] == doc.blocks;
  }

  // ---- The gate

  ghost predicate Quiet(reader: Reader, doc: Document, tpl: Fingerprint) {
    forall w :: !Warns(reader, doc, tpl, w)
  }

  /** Without a warning nothing required is absent and nothing asks for review. */
  lemma QuietMeans(reader: Reader, doc: Document, tpl: Fingerprint)
    requires Quiet(reader, doc, tpl)
    ensures !FailClosed(reader, doc, tpl)
    ensures forall t :: t in tpl.tables ==> TableFound(reader, doc, tpl, t) && ColumnsFound(reader, doc, tpl, t)
    ensures doc.warnings == []
    ensures forall b :: b in doc.blocks ==> b.review.warnings == [] && !b.review.requiresReview
  {
    assert !Warns(reader, doc, tpl, PagesMissing);
    assert !Warns(reader, doc, tpl, AnchorsMissing);
    assert !Warns(reader, doc, tpl, ScopesUnsatisfied);
    forall id | id in RequiredIds(tpl) ensures id in DefinedIds(tpl) {
      assert !Warns(reader, doc, tpl, AnchorUndefined(id));
    }
    forall a | a in tpl.anchors && IsRequired(tpl, a) ensures Matches(reader, doc, a) {
      assert !Warns(reader, doc, tpl, AnchorMissing(DisplayId(a.id)));
    }
    forall t | t in tpl.tables ensures TableFound(reader, doc, tpl, t) && ColumnsFound(reader, doc, tpl, t) {
      assert !Warns(reader, doc, tpl, TableMissing(DisplayId(t.id)));
      assert !Warns(reader, doc, tpl, ColumnsIncomplete(DisplayId(t.id)));
      assert OneTableWarns(reader, doc, tpl, t, TableMissing(DisplayId(t.id))) || TableFound(reader, doc, tpl, t);
      assert OneTableWarns(reader, doc, tpl, t, ColumnsIncomplete(DisplayId(t.id))) || !TableFound(reader, doc, tpl, t)
        || ColumnsFound(reader, doc, tpl, t);
    }
    FirstIsMember(doc.warnings);
    forall text ensures text !in doc.warnings {
      assert !Warns(reader, doc, tpl, DocumentWarning(text));
    }
    forall b | b in doc.blocks ensures b.review.warnings == [] && !b.review.requiresReview {
      if b.review.warnings != [] {
        assert b.review.warnings[0] in b.review.warnings;
        assert Warns(reader, doc, tpl, DocumentWarning(b.review.warnings[0]));
      }
      assert !Warns(reader, doc, tpl, BlockNeedsReview(b.id));
    }
  }

  lemma GateIsQuiet(reader: Reader, doc: Document, tpl: Fingerprint)
    requires Gate(reader, doc, tpl)
    ensures Quiet(reader, doc, tpl)
  {
    forall w ensures !TableWarns(reader, doc, tpl, tpl.tables, w) {}
  }

  lemma {:induction false} AllScoredMatch(reader: Reader, doc: Document, tpl: Fingerprint, anchors: seq<Anchor>)
    requires forall a :: a in anchors && IsRequired(tpl, a) ==> Matches(reader, doc, a)
    ensures MatchedCount(reader, doc, anchors) == ScoredCount(reader, doc, tpl, anchors)
    ensures ScoredCount(reader, doc, tpl, anchors) > 0 <==> exists a :: a in anchors && Matches(reader, doc, a)
  {
    if anchors != [] {
      var init, last := anchors[..|anchors| - 1], anchors[|anchors| - 1];
      assert anchors == init + [last];
      AllScoredMatch(reader, doc, tpl, init);
    }
  }

  lemma {:induction false} FullTablesSum(reader: Reader, doc: Document, tpl: Fingerprint, tables: seq<Table>)
    requires forall t :: t in tables ==> TableFound(reader, doc, tpl, t) && ColumnsFound(reader, doc, tpl, t)
    ensures SumOfTableScores(reader, doc, tpl, tables) >= |tables| as real
  {
    if tables != [] {
      var init, last := tables[..|tables| - 1], tables[|tables| - 1];
      assert tables == init + [last];
      FullTablesSum(reader, doc, tpl, init);
    }
  }

  lemma AtLeastOne(sum: real, count: real)
    requires 0.0 < count <= sum
    ensures sum / count >= 1.0
  {
  }

  /** Without a warning the score is 1 if some anchor is found and 0.4 otherwise. */
  lemma QuietScore(reader: Reader, doc: Document, tpl: Fingerprint)
    requires Quiet(reader, doc, tpl)
    ensures Score(reader, doc, tpl) == if exists a :: a in tpl.anchors && Matches(reader, doc, a) then 1.0 else 0.4
  {
    QuietMeans(reader, doc, tpl);
    SatisfiedPages(doc, tpl);
    FullTables(reader, doc, tpl);
    AllFound(reader, doc, tpl);
  }

  lemma SatisfiedPages(doc: Document, tpl: Fingerprint)
    requires ScopedPages(tpl) <= PageNumbers(doc)
    ensures PageScore(doc, tpl) == 1.0
  {
    assert ScopedPages(tpl) * PageNumbers(doc) == ScopedPages(tpl);
    if ScopedPages(tpl) != {} {
      WholeOfItself(|ScopedPages(tpl)| as real);
    }
  }

  lemma WholeOfItself(x: real)
    requires x > 0.0
    ensures x / x == 1.0
  {
  }

  lemma FullTables(reader: Reader, doc: Document, tpl: Fingerprint)
    requires forall t :: t in tpl.tables ==> TableFound(reader, doc, tpl, t) && ColumnsFound(reader, doc, tpl, t)
    ensures Bounded(TableScore(reader, doc, tpl)) == 1.0
  {
    if tpl.tables != [] {
      FullTablesSum(reader, doc, tpl, tpl.tables);
      AtLeastOne(SumOfTableScores(reader, doc, tpl, tpl.tables), |tpl.tables| as real);
    }
  }

  lemma AllFound(reader: Reader, doc: Document, tpl: Fingerprint)
    requires forall a :: a in tpl.anchors && IsRequired(tpl, a) ==> Matches(reader, doc, a)
    ensures AnchorScore(reader, doc, tpl) == ScoreOf(exists a :: a in tpl.anchors && Matches(reader, doc, a))
  {
    AllScoredMatch(reader, doc, tpl, tpl.anchors);
    if ScoredCount(reader, doc, tpl, tpl.anchors) > 0 {
      WholeShare(ScoredCount(reader, doc, tpl, tpl.anchors) as real);
    }
  }

  lemma WholeShare(n: real)
    requires n > 0.0
    ensures n / n == 1.0
  {
  }

  /** No review is needed exactly when there is no warning and some anchor is found, and
      that is the gate. */
  lemma GateIsNoReview(reader: Reader, doc: Document, tpl: Fingerprint)
    ensures Quiet(reader, doc, tpl) && Classify(Score(reader, doc, tpl)).Known? <==> Gate(reader, doc, tpl)
    ensures Gate(reader, doc, tpl) ==> Score(reader, doc, tpl) == 1.0
    ensures FailClosed(reader, doc, tpl) ==> Classify(Score(reader, doc, tpl)).Unknown?
    ensures Classify(Score(reader, doc, tpl)).Caution? ==> !Quiet(reader, doc, tpl)
  {
    hide Matches, TableFound, ColumnsFound, AnchorScore, PageScore, TableScore, Warns, IsRequired;
    if Quiet(reader, doc, tpl) {
      QuietMeans(reader, doc, tpl);
      QuietScore(reader, doc, tpl);
    }
    if Gate(reader, doc, tpl) {
      GateIsQuiet(reader, doc, tpl);
      QuietScore(reader, doc, tpl);
    }
  }
}
