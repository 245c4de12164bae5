/** The Document IR v1 validator (core/ir/document_ir_v1.py, `validate_document_ir_v1`) against a
    declarative notion of a well-formed document. */
module DocumentValidator {
  import opened Prelude
  import opened ParserFragments
  import opened DocumentIR

  // ---- What a well-formed document is

  ghost predicate IsPositive(n: Num) {
    n.Finite? && n.value > 0.0
  }

  ghost predicate WellFormedPage(page: Page) {
    page.number.Some? && page.number.value >= 1 && IsPositive(page.width) && IsPositive(page.height)
      && page.unit in UNITS
  }

  /** The interval from `at` of length `size` lies between 0 and `end`. */
  ghost predicate Within(at: Num, size: Num, end: Num) {
    at.Finite? && size.Finite? && end.Finite? && 0.0 <= at.value <= at.value + size.value <= end.value
  }

  ghost predicate StandsOn(block: Block, page: Page) {
    && block.sourcePage == page.number
    && block.bbox.unit == page.unit && block.bbox.origin == "top-left"
    && Within(block.bbox.x, block.bbox.width, page.width) && Within(block.bbox.y, block.bbox.height, page.height)
  }

  ghost predicate WellFormedBlock(block: Block, pages: seq<Page>) {
    && block.kind in BLOCK_TYPES
    && block.confidence.Finite? && 0.0 <= block.confidence.value <= 1.0
    && exists i :: 0 <= i < |pages| && StandsOn(block, pages[i])
  }

  ghost predicate WellFormed(doc: Document) {
    && doc.schemaVersion == SCHEMA_VERSION && doc.id != "" && doc.sourceType in SOURCE_TYPES && doc.pages != []
    && (forall i :: 0 <= i < |doc.pages| ==> WellFormedPage(doc.pages[i]))
    && (forall i, k :: 0 <= i < k < |doc.pages| ==> doc.pages[i].number != doc.pages[k].number)
    && (forall i :: 0 <= i < |doc.blocks| ==> WellFormedBlock(doc.blocks[i], doc.pages))
  }

  // ---- The rules, one for each message

  datatype DocumentRule = SchemaVersion | DocumentId | SourceType | SomePage

  datatype PageRule = NumberIsInteger | NumberIsPositive | NumberIsNew | PositiveDimensions | PageUnit

  datatype BlockRule = KnownType | PageIsInteger | PageIsPositive | PageIsDeclared | NonNegativeSize | FiniteBox
    | TopLeftOrigin | BoxUnit | UnitOfPage | InsidePage | ConfidenceInRange

  datatype Problem = InDocument(rule: DocumentRule) | InPage(page: nat, pageRule: PageRule)
    | InBlock(block: nat, blockRule: BlockRule)

  ghost predicate BreaksDocument(doc: Document, rule: DocumentRule) {
    match rule
    case SchemaVersion => doc.schemaVersion != SCHEMA_VERSION
    case DocumentId => doc.id == ""
    case SourceType => doc.sourceType !in SOURCE_TYPES
    case SomePage => doc.pages == []
  }

  ghost predicate IsNumbered(page: Page) {
    page.number.Some? && page.number.value >= 1
  }

  ghost predicate Declared(pages: seq<Page>, number: int) {
    exists i :: 0 <= i < |pages| && pages[i].number == Some(number)
  }

  ghost predicate BreaksPage(page: Page, earlier: seq<Page>, rule: PageRule) {
    match rule
    case NumberIsInteger => page.number.None?
    case NumberIsPositive => page.number.Some? && page.number.value < 1
    case NumberIsNew => IsNumbered(page) && Declared(earlier, page.number.value)
    case PositiveDimensions => IsNumbered(page) && !(IsPositive(page.width) && IsPositive(page.height))
    case PageUnit => IsNumbered(page) && page.unit !in UNITS
  }

  /** The page that stands for `number`: the last one declared with it. */
  ghost function PageFor(pages: seq<Page>, number: int): Option<Page> {
    if pages == [] then None
    else if pages[|pages| - 1].number == Some(number) then Some(pages[|pages| - 1])
    else PageFor(pages[..|pages| - 1], number)
  }

  /** Comparisons with NaN are false. */
  predicate Negative(n: Num) {
    n.Finite? && n.value < 0.0
  }

  predicate Past(at: Num, size: Num, end: Num) {
    at.Finite? && size.Finite? && end.Finite? && at.value + size.value > end.value
  }

  ghost predicate BoxBreaks(box: BoundingBox, page: Page, rule: BlockRule) {
    match rule
    case NonNegativeSize => Negative(box.width) || Negative(box.height)
    case FiniteBox => box.x.NotFinite? || box.y.NotFinite? || box.width.NotFinite? || box.height.NotFinite?
    case TopLeftOrigin => box.origin != "top-left"
    case BoxUnit => box.unit !in UNITS
    case UnitOfPage => box.unit != page.unit
    case InsidePage => Negative(box.x) || Negative(box.y) || Past(box.x, box.width, page.width)
      || Past(box.y, box.height, page.height)
    case _ => false
  }

  predicate BadConfidence(n: Num) {
    n.NotFinite? || n.value < 0.0 || n.value > 1.0
  }

  ghost predicate IsPlaced(block: Block, pages: seq<Page>) {
    block.sourcePage.Some? && block.sourcePage.value >= 1 && PageFor(pages, block.sourcePage.value).Some?
  }

  ghost predicate BreaksBlock(block: Block, pages: seq<Page>, rule: BlockRule) {
    match rule
    case KnownType => block.kind !in BLOCK_TYPES
    case PageIsInteger => block.sourcePage.None?
    case PageIsPositive => block.sourcePage.Some? && block.sourcePage.value < 1
    case PageIsDeclared => block.sourcePage.Some? && block.sourcePage.value >= 1
      && PageFor(pages, block.sourcePage.value).None?
    case ConfidenceInRange => IsPlaced(block, pages) && BadConfidence(block.confidence)
    case _ => IsPlaced(block, pages) && BoxBreaks(block.bbox, PageFor(pages, block.sourcePage.value).value, rule)
  }

  ghost predicate Breaks(doc: Document, p: Problem) {
    match p
    case InDocument(rule) => BreaksDocument(doc, rule)
    case InPage(i, rule) => i < |doc.pages| && BreaksPage(doc.pages[i], doc.pages[..i], rule)
    case InBlock(i, rule) => i < |doc.blocks| && BreaksBlock(doc.blocks[i], doc.pages, rule)
  }

  // ---- Well-formed means that no rule is broken

  lemma {:induction false} PageForIsDeclared(pages: seq<Page>, number: int)
    ensures PageFor(pages, number).Some? <==> Declared(pages, number)
    ensures PageFor(pages, number).Some? ==>
      PageFor(pages, number).value in pages && PageFor(pages, number).value.number == Some(number)
  {
    if pages != [] {
      var init := pages[..|pages| - 1];
      PageForIsDeclared(init, number);
      if pages[|pages| - 1].number != Some(number) && Declared(pages, number) {
        var i :| 0 <= i < |pages| && pages[i].number == Some(number);
        assert init[i].number == Some(number);
      }
    }
  }

  lemma BlockRules(block: Block, pages: seq<Page>)
    requires forall i :: 0 <= i < |pages| ==> WellFormedPage(pages[i])
    requires forall i, k :: 0 <= i < k < |pages| ==> pages[i].number != pages[k].number
    ensures WellFormedBlock(block, pages) <==> forall rule :: !BreaksBlock(block, pages, rule)
  {
    hide PageFor;
    if WellFormedBlock(block, pages) {
      var i :| 0 <= i < |pages| && StandsOn(block, pages[i]);
      PageForIsDeclared(pages, block.sourcePage.value);
      var k :| 0 <= k < |pages| && pages[k] == PageFor(pages, block.sourcePage.value).value;
      assert i == k;
    } else if forall rule :: !BreaksBlock(block, pages, rule) {
      BreaksNoBlockRule(block, pages);
    }
  }

  lemma BreaksNoBlockRule(block: Block, pages: seq<Page>)
    requires forall i :: 0 <= i < |pages| ==> WellFormedPage(pages[i])
    requires forall rule :: !BreaksBlock(block, pages, rule)
    ensures WellFormedBlock(block, pages)
  {
    hide PageFor;
    assert !BreaksBlock(block, pages, KnownType) && !BreaksBlock(block, pages, PageIsInteger)
      && !BreaksBlock(block, pages, PageIsPositive);
    assert !BreaksBlock(block, pages, PageIsDeclared) && !BreaksBlock(block, pages, ConfidenceInRange);
    assert !BreaksBlock(block, pages, NonNegativeSize) && !BreaksBlock(block, pages, FiniteBox)
      && !BreaksBlock(block, pages, TopLeftOrigin);
    assert !BreaksBlock(block, pages, UnitOfPage) && !BreaksBlock(block, pages, InsidePage);
    PageForIsDeclared(pages, block.sourcePage.value);
    var k :| 0 <= k < |pages| && pages[k] == PageFor(pages, block.sourcePage.value).value;
    assert StandsOn(block, pages[k]);
  }

  lemma PageRules(doc: Document)
    ensures (forall i :: 0 <= i < |doc.pages| ==> WellFormedPage(doc.pages[i]))
      && (forall i, k :: 0 <= i < k < |doc.pages| ==> doc.pages[i].number != doc.pages[k].number)
      <==> forall i: nat, rule :: i < |doc.pages| ==> !BreaksPage(doc.pages[i], doc.pages[..i], rule)
  {
    var pages := doc.pages;
    if forall i: nat, rule :: i < |pages| ==> !BreaksPage(pages[i], pages[..i], rule) {
      forall i | 0 <= i < |pages| ensures WellFormedPage(pages[i]) {
        assert !BreaksPage(pages[i], pages[..i], NumberIsInteger)
          && !BreaksPage(pages[i], pages[..i], NumberIsPositive);
        assert !BreaksPage(pages[i], pages[..i], PositiveDimensions) && !BreaksPage(pages[i], pages[..i], PageUnit);
      }
      forall i, k | 0 <= i < k < |pages| ensures pages[i].number != pages[k].number {
        assert !BreaksPage(pages[k], pages[..k], NumberIsNew);
        assert pages[..k][i] == pages[i];
        assert WellFormedPage(pages[i]) && WellFormedPage(pages[k]);
      }
    }
  }

  /** The declarative notion and the list of rules are the same. */
  lemma WellFormedBreaksNothing(doc: Document)
    ensures WellFormed(doc) <==> forall p :: !Breaks(doc, p)
  {
    hide WellFormedBlock, WellFormedPage, BreaksBlock, BreaksPage;
    PageRules(doc);
    if WellFormed(doc) {
      forall p ensures !Breaks(doc, p) {
        if p.InBlock? && p.block < |doc.blocks| {
          BlockRules(doc.blocks[p.block], doc.pages);
        }
      }
    } else if forall p :: !Breaks(doc, p) {
      assert !Breaks(doc, InDocument(SchemaVersion)) && !Breaks(doc, InDocument(DocumentId))
        && !Breaks(doc, InDocument(SourceType)) && !Breaks(doc, InDocument(SomePage));
      forall i: nat, rule | i < |doc.pages| ensures !BreaksPage(doc.pages[i], doc.pages[..i], rule) {
        assert !Breaks(doc, InPage(i, rule));
      }
      forall i | 0 <= i < |doc.blocks| ensures WellFormedBlock(doc.blocks[i], doc.pages) {
        forall rule ensures !BreaksBlock(doc.blocks[i], doc.pages, rule) {
          assert !Breaks(doc, InBlock(i, rule));
        }
        BlockRules(doc.blocks[i], doc.pages);
      }
    }
  }

  // ---- The validator

  datatype Validation = Validation(ok: bool, errors: seq<Problem>, warnings: seq<string>, requiresReview: bool)

  /** The warnings of the document and of the blocks whose page is declared. */
  ghost function PlacedWarnings(blocks: seq<Block>, pages: seq<Page>): seq<string> {
    if blocks == [] then []
    else
      var init, last := PlacedWarnings(blocks[..|blocks| - 1], pages), blocks[|blocks| - 1];
      if IsPlaced(last, pages) then init + last.review.warnings else init
  }

  ghost function ReportedWarnings(doc: Document): seq<string> {
    doc.warnings + (if doc.blocks == [] then ["blocks empty; document requires review"] else [])
      + PlacedWarnings(doc.blocks, doc.pages)
  }

  /** Nothing in the document asks for a person to look at it. */
  ghost predicate NeedsNoReview(doc: Document) {
    && WellFormed(doc) && doc.blocks != [] && doc.warnings == []
    && forall i :: 0 <= i < |doc.blocks| ==> !doc.blocks[i].review.requiresReview && doc.blocks[i].review.warnings == []
  }

  /** `pages_by_number` */
  ghost predicate Indexes(byNumber: map<int, Page>, pages: seq<Page>) {
    && (forall n :: n in byNumber <==> n >= 1 && PageFor(pages, n).Some?)
    && (forall n :: n in byNumber ==> byNumber[n] == PageFor(pages, n).value)
  }

  method CheckDocument(doc: Document) returns (errors: seq<Problem>)
    ensures forall p :: p in errors <==> p.InDocument? && Breaks(doc, p)
  {
    errors := [];
    if doc.schemaVersion != SCHEMA_VERSION {
      errors := errors + [InDocument(SchemaVersion)];
    }
    if doc.id == "" {
      errors := errors + [InDocument(DocumentId)];
    }
    if doc.sourceType !in SOURCE_TYPES {
      errors := errors + [InDocument(SourceType)];
    }
    if doc.pages == [] {
      errors := errors + [InDocument(SomePage)];
    }
    forall rule ensures InDocument(rule) in errors <==> BreaksDocument(doc, rule) {
      match rule
      case SchemaVersion =>
      case DocumentId =>
      case SourceType =>
      case SomePage =>
    }
  }

  lemma IndexMore(byNumber: map<int, Page>, pages: seq<Page>, page: Page)
    requires Indexes(byNumber, pages)
    ensures IsNumbered(page) ==> Indexes(byNumber[page.number.value := page], pages + [page])
    ensures !IsNumbered(page) ==> Indexes(byNumber, pages + [page])
  {
    assert (pages + [page])[..|pages|] == pages;
  }

  method CheckPage(page: Page, index: nat, ghost earlier: seq<Page>, byNumber: map<int, Page>)
    returns (errors: seq<Problem>, byNumber': map<int, Page>)
    requires Indexes(byNumber, earlier)
    ensures forall p :: p in errors <==> p.InPage? && p.page == index && BreaksPage(page, earlier, p.pageRule)
    ensures Indexes(byNumber', earlier + [page])
  {
    hide PageFor;
    errors, byNumber' := [], byNumber;
    IndexMore(byNumber, earlier, page);
    if page.number.None? {
      errors := [InPage(index, NumberIsInteger)];
      return;
    }
    if page.number.value < 1 {
      errors := [InPage(index, NumberIsPositive)];
      return;
    }
    PageForIsDeclared(earlier, page.number.value);
    if page.number.value in byNumber {
      errors := errors + [InPage(index, NumberIsNew)];
    }
    byNumber' := byNumber[page.number.value := page];
    if page.width.NotFinite? || page.width.value <= 0.0 || page.height.NotFinite? || page.height.value <= 0.0 {
      errors := errors + [InPage(index, PositiveDimensions)];
    }
    if page.unit !in UNITS {
      errors := errors + [InPage(index, PageUnit)];
    }
  }

  method CheckBox(box: BoundingBox, page: Page, index: nat) returns (errors: seq<Problem>)
    ensures forall p :: p in errors <==> p.InBlock? && p.block == index && BoxBreaks(box, page, p.blockRule)
  {
    errors := [];
    if Negative(box.width) || Negative(box.height) {
      errors := errors + [InBlock(index, NonNegativeSize)];
    }
    if box.x.NotFinite? || box.y.NotFinite? || box.width.NotFinite? || box.height.NotFinite? {
      errors := errors + [InBlock(index, FiniteBox)];
    }
    if box.origin != "top-left" {
      errors := errors + [InBlock(index, TopLeftOrigin)];
    }
    if box.unit !in UNITS {
      errors := errors + [InBlock(index, BoxUnit)];
    }
    if box.unit != page.unit {
      errors := errors + [InBlock(index, UnitOfPage)];
    }
    if Negative(box.x) || Negative(box.y)
      || Past(box.x, box.width, page.width) || Past(box.y, box.height, page.height)
    {
      errors := errors + [InBlock(index, InsidePage)];
    }
  }

  method CheckBlock(block: Block, index: nat, ghost pages: seq<Page>, byNumber: map<int, Page>)
    returns (errors: seq<Problem>, warnings: seq<string>)
    requires Indexes(byNumber, pages)
    ensures forall p :: p in errors <==> p.InBlock? && p.block == index && BreaksBlock(block, pages, p.blockRule)
    ensures warnings == if IsPlaced(block, pages) then block.review.warnings else []
  {
    hide PageFor;
    errors, warnings := [], [];
    if block.kind !in BLOCK_TYPES {
      errors := errors + [InBlock(index, KnownType)];
    }
    if block.sourcePage.None? {
      errors := errors + [InBlock(index, PageIsInteger)];
      return;
    }
    if block.sourcePage.value < 1 {
      errors := errors + [InBlock(index, PageIsPositive)];
      return;
    }
    if block.sourcePage.value !in byNumber {
      errors := errors + [InBlock(index, PageIsDeclared)];
      return;
    }
    var page := byNumber[block.sourcePage.value];
    var boxErrors := CheckBox(block.bbox, page, index);
    errors := errors + boxErrors;
    if BadConfidence(block.confidence) {
      errors := errors + [InBlock(index, ConfidenceInRange)];
    }
    warnings := block.review.warnings;
  }

  ghost predicate IsUpTo(p: Problem, pages: nat, blocks: nat) {
    match p
    case InDocument(_) => true
    case InPage(i, _) => i < pages
    case InBlock(i, _) => i < blocks
  }

  /** The document is accepted exactly when it is well formed, the errors are exactly the rules
      that it breaks, and review is waived exactly when nothing asks for it. */
  method ValidateDocument(doc: Document) returns (r: Validation)
    ensures r.ok <==> WellFormed(doc)
    ensures forall p :: p in r.errors <==> Breaks(doc, p)
    ensures r.warnings == Dedupe(ReportedWarnings(doc))
    ensures r.requiresReview <==> !NeedsNoReview(doc)
  {
    hide BreaksPage, BreaksBlock, WellFormed, Indexes, IsPlaced;
    var errors := CheckDocument(doc);
    var warnings := doc.warnings + if doc.blocks == [] then ["blocks empty; document requires review"] else [];
    ghost var start := warnings;
    var byNumber: map<int, Page> := map[];
    NothingIndexed();
    for i := 0 to |doc.pages|
      invariant Indexes(byNumber, doc.pages[..i])
      invariant forall p :: p in errors <==> Breaks(doc, p) && IsUpTo(p, i, 0)
    {
      var found;
      found, byNumber := CheckPage(doc.pages[i], i, doc.pages[..i], byNumber);
      assert doc.pages[..i + 1] == doc.pages[..i] + [doc.pages[i]];
      errors := errors + found;
    }
    assert doc.pages[..|doc.pages|] == doc.pages;
    for i := 0 to |doc.blocks|
      invariant forall p :: p in errors <==> Breaks(doc, p) && IsUpTo(p, |doc.pages|, i)
      invariant warnings == start + PlacedWarnings(doc.blocks[..i], doc.pages)
    {
      var found, more := CheckBlock(doc.blocks[i], i, doc.pages, byNumber);
      assert doc.blocks[..i + 1][..i] == doc.blocks[..i];
      errors, warnings := errors + found, warnings + more;
    }
    assert doc.blocks[..|doc.blocks|] == doc.blocks;
    WellFormedBreaksNothing(doc);
    FirstIsMember(errors);
    var deduped := Dedupe(warnings);
    var flagged := exists i :: 0 <= i < |doc.blocks| && doc.blocks[i].review.requiresReview;
    r := Validation(errors == [], errors, deduped, errors != [] || deduped != [] || flagged);
    if errors == [] {
      WarningsMatter(doc);
    }
  }

  lemma NothingIndexed()
    ensures Indexes(map[], [])
  {
  }

  lemma {:induction false} NoPlacedWarnings(blocks: seq<Block>, pages: seq<Page>)
    requires forall i :: 0 <= i < |blocks| ==> IsPlaced(blocks[i], pages)
    ensures PlacedWarnings(blocks, pages) == [] <==> forall i :: 0 <= i < |blocks| ==> blocks[i].review.warnings == []
  {
    hide IsPlaced;
    if blocks != [] {
      NoPlacedWarnings(blocks[..|blocks| - 1], pages);
      assert forall i :: 0 <= i < |blocks| - 1 ==> blocks[..|blocks| - 1][i] == blocks[i];
    }
  }

  lemma WarningsMatter(doc: Document)
    requires WellFormed(doc)
    ensures ReportedWarnings(doc) == [] <==>
      doc.blocks != [] && doc.warnings == [] && forall i :: 0 <= i < |doc.blocks| ==>
        doc.blocks[i].review.warnings == []
  {
    forall i | 0 <= i < |doc.blocks| ensures IsPlaced(doc.blocks[i], doc.pages) {
      var k :| 0 <= k < |doc.pages| && StandsOn(doc.blocks[i], doc.pages[k]);
      assert WellFormedPage(doc.pages[k]);
      PageForIsDeclared(doc.pages, doc.blocks[i].sourcePage.value);
    }
    NoPlacedWarnings(doc.blocks, doc.pages);
  }

  // ---- Parser output is fail-closed

  lemma {:induction false} NoBlockWarnings(blocks: seq<Block>)
    ensures BlockWarnings(blocks) == [] <==> forall i :: 0 <= i < |blocks| ==> blocks[i].review.warnings == []
  {
    if blocks != [] {
      NoBlockWarnings(blocks[..|blocks| - 1]);
      assert forall i :: 0 <= i < |blocks| - 1 ==> blocks[..|blocks| - 1][i] == blocks[i];
    }
  }

  /** A document built from parser output goes without review exactly when it is well formed, has
      a block, and every fragment and region it came from is clean. */
  lemma OnlyCleanGoesUnreviewed(pages: seq<ParserPage>, id: string, sourceType: string, extractor: string)
    ensures NeedsNoReview(Built(pages, id, sourceType, extractor)) <==>
      WellFormed(Built(pages, id, sourceType, extractor)) && Items(pages) != []
        && forall k :: 0 <= k < |Items(pages)| ==> IsClean(Items(pages)[k].fragment)
  {
    hide WellFormed, IsClean, ReviewWarnings, Items, PagesOf, BlockWarnings, BlockConfidence, BoxOf, BlockType,
      ExtractorRef, BlockId;
    var doc, items := Built(pages, id, sourceType, extractor), Items(pages);
    NoBlockWarnings(doc.blocks);
    forall k | 0 <= k < |items|
      ensures (doc.blocks[k].review.requiresReview <==> !IsClean(items[k].fragment))
        && (doc.blocks[k].review.warnings != [] <==> !IsClean(items[k].fragment))
    {
      ReviewHasReason(items[k].fragment, k + 1, items[k].pageNumber, extractor);
    }
    if WellFormed(doc) {
      HasPages(pages, id, sourceType, extractor);
    }
  }

  lemma HasPages(pages: seq<ParserPage>, id: string, sourceType: string, extractor: string)
    requires WellFormed(Built(pages, id, sourceType, extractor))
    ensures pages != []
  {
  }
}
