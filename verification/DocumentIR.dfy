/** Document IR v1: building it from parser output, and validating it
    (core/ir/document_ir_v1.py, `from_parser_output` and `validate_document_ir_v1`). */
module DocumentIR {
  import opened Prelude
  import opened PythonText
  import opened Decimals
  import opened ParserFragments

  datatype BoundingBox = BoundingBox(x: Num, y: Num, width: Num, height: Num, unit: string, origin: string)

  /** `number` is None when the source's value is not an integer. */
  datatype Page = Page(number: Option<int>, width: Num, height: Num, unit: string)

  datatype Review = Review(requiresReview: bool, warnings: seq<string>)

  datatype Block = Block(
    id: string, kind: string, text: string, sourcePage: Option<int>, bbox: BoundingBox,
    extractor: string, confidence: Num, review: Review)

  datatype Document = Document(
    schemaVersion: string, id: string, sourceType: string,
    pages: seq<Page>, blocks: seq<Block>, warnings: seq<string>)

  const SCHEMA_VERSION := "document-ir/v1"
  const SOURCE_TYPES := {"pdf", "docx", "xlsx", "unknown"}
  const UNITS := {"pt", "px", "mm"}

  // ---- Blocks

  function PageNumber(n: RawNumber, default: int): int {
    match n
    case Missing => default
    case Whole(value) => value
    case NotWhole => 0
  }

  /** `_bbox_value` finds all four coordinates. */
  predicate HasBox(f: Fragment) {
    f.bbox.Some? && f.bbox.value.x.Some? && f.bbox.value.y.Some? && f.bbox.value.width.Some?
      && f.bbox.value.height.Some?
  }

  const NO_BOX := BoundingBox(Finite(0.0), Finite(0.0), Finite(0.0), Finite(0.0), "pt", "top-left")

  function BoxOf(f: Fragment): BoundingBox {
    if HasBox(f) then
      var b := f.bbox.value;
      BoundingBox(b.x.value, b.y.value, b.width.value, b.height.value, b.unit, b.origin)
    else NO_BOX
  }

  predicate HasEngine(f: Fragment) {
    f.engine.Some? && f.engine.value != ""
  }

  ghost predicate InvalidConfidence(f: Fragment) {
    f.confidence.Some? && (f.confidence.value.NotFinite? || f.confidence.value.value < 0.0)
  }

  ghost predicate ConfidenceMissing(f: Fragment) {
    f.missingConfidence || (f.confidence.None? && HasEngine(f))
  }

  /** `_confidence_value` of a valid confidence: an engine reports percentages. */
  ghost function ReadConfidence(f: Fragment): real
    requires !InvalidConfidence(f)
  {
    if f.confidence.None? then 0.95
    else if HasEngine(f) then f.confidence.value.value / 100.0
    else f.confidence.value.value
  }

  ghost function BlockConfidence(f: Fragment): real {
    if !HasBox(f) || IsBlank(f.text) || ConfidenceMissing(f) || InvalidConfidence(f) then 0.0 else ReadConfidence(f)
  }

  /** Why a block asks for review. */
  datatype Cause = BoxMissing | TextEmpty | NoConfidence | BadConfidence | LowConfidence | MarkedByParser

  ghost function CauseWarning(cause: Cause, index: nat): string
    requires index > 0
  {
    "blocks[" + DecimalText(index - 1) + "]."
    + match cause
      case BoxMissing => "bbox missing; block marked requires_review"
      case TextEmpty => "text empty; block marked requires_review"
      case NoConfidence => "confidence missing; block marked requires_review"
      case BadConfidence => "confidence invalid; block marked requires_review"
      case LowConfidence => "low confidence; block marked requires_review"
      case MarkedByParser => "parser marked block requires_review"
  }

  ghost function Reason(given: bool, cause: Cause, index: nat): seq<string>
    requires index > 0
  {
    if given then [CauseWarning(cause, index)] else []
  }

  ghost function ReviewWarnings(f: Fragment, index: nat): seq<string>
    requires index > 0
  {
    [] + Reason(!HasBox(f), BoxMissing, index)
    + Reason(IsBlank(f.text), TextEmpty, index)
    + Reason(ConfidenceMissing(f), NoConfidence, index)
    + Reason(InvalidConfidence(f), BadConfidence, index)
    + Reason(f.lowConfidence, LowConfidence, index)
    + Reason(f.requiresReview, MarkedByParser, index)
    + Warnings(f)
  }

  /** A fragment that can be trusted as it is. */
  ghost predicate IsClean(f: Fragment) {
    && HasBox(f) && !IsBlank(f.text)
    && !ConfidenceMissing(f) && !InvalidConfidence(f)
    && !f.lowConfidence && !f.requiresReview && Warnings(f) == []
  }

  function BlockType(f: Fragment): string {
    var raw := FirstText(f.typ, f.kind);
    if IsBlockType(raw) || (raw != "" && f.preserveInvalidType) then raw else "paragraph"
  }

  /** The name in `_extractor_ref` */
  function ExtractorRef(f: Fragment, fallback: string): string {
    match f.extractor
    case Some(Record(fields)) => if "name" in fields && fields["name"] != "" then fields["name"] else fallback
    case Some(Named(text)) => if text != "" then text else if HasEngine(f) then f.engine.value else fallback
    case None => if HasEngine(f) then f.engine.value else fallback
  }

  ghost function BlockId(index: nat): string {
    "block-" + Padded(index, 4)
  }

  /** `_block_from_fragment` */
  ghost function BlockFromFragment(f: Fragment, index: nat, pageNumber: int, extractor: string): Block
    requires index > 0
  {
    Block(BlockId(index), BlockType(f), f.text, Some(PageNumber(f.pageNumber, pageNumber)), BoxOf(f),
          ExtractorRef(f, extractor), Finite(BlockConfidence(f)),
          Review(!IsClean(f), ReviewWarnings(f, index)))
  }

  // ---- What a block shows of its fragment

  /** The type of the fragment, or else its kind, if that is a block type or is to be kept as it is. */
  ghost predicate ShowsType(f: Fragment, kind: string) {
    var raw :=
      if f.typ.Some? && f.typ.value != "" then f.typ.value
      else if f.kind.Some? then f.kind.value
      else "";
    if raw in {"heading", "paragraph", "table", "field", "footnote", "list_item"} then kind == raw
    else kind == if raw != "" && f.preserveInvalidType then raw else "paragraph"
  }

  /** The box with all four coordinates, or else an empty box in the corner. */
  ghost predicate ShowsBox(f: Fragment, box: BoundingBox) {
    match f.bbox
    case Some(RawBox(Some(x), Some(y), Some(width), Some(height), unit, origin)) =>
      box.x == x && box.y == y && box.width == width && box.height == height && box.unit == unit && box.origin == origin
    case _ =>
      box == BoundingBox(Finite(0.0), Finite(0.0), Finite(0.0), Finite(0.0), "pt", "top-left")
  }

  /** Without a box, a text or a confidence that can be trusted, none; else what the fragment says, in
      percent if it comes from an engine. */
  ghost predicate ShowsConfidence(f: Fragment, confidence: Num) {
    var engine := f.engine.Some? && f.engine.value != "";
    var boxed := f.bbox.Some? && f.bbox.value.x.Some? && f.bbox.value.y.Some? && f.bbox.value.width.Some?
      && f.bbox.value.height.Some?;
    if !boxed || (forall i :: 0 <= i < |f.text| ==> IsSpace(f.text[i])) || f.missingConfidence
      then confidence == Finite(0.0)
    else
      match f.confidence
      case None => confidence == Finite(if engine then 0.0 else 0.95)
      case Some(NotFinite) => confidence == Finite(0.0)
      case Some(Finite(given)) =>
        confidence == Finite(if given < 0.0 then 0.0 else if engine then given / 100.0 else given)
  }

  /** The fragment's own page, or else the page it is on. */
  ghost predicate ShowsPage(f: Fragment, onPage: int, sourcePage: Option<int>) {
    && (f.pageNumber == Missing ==> sourcePage == Some(onPage))
    && (f.pageNumber.Whole? ==> sourcePage == Some(f.pageNumber.value))
    && (f.pageNumber == NotWhole ==> sourcePage == Some(0))
  }

  /** The fragment's extractor, or else its engine, or else that of the parser. */
  ghost predicate ShowsExtractor(f: Fragment, fallback: string, name: string) {
    match f.extractor
    case Some(Record(fields)) => name == if "name" in fields && fields["name"] != "" then fields["name"] else fallback
    case Some(Named(text)) =>
      name ==
        if text != "" then text else if f.engine.Some? && f.engine.value != "" then f.engine.value else fallback
    case None => name == if f.engine.Some? && f.engine.value != "" then f.engine.value else fallback
  }

  /** The block is the one at `position`, counted from 0, and shows what the fragment says. */
  ghost predicate Shows(f: Fragment, position: nat, onPage: int, fallback: string, block: Block) {
    && block.id == "block-" + Padded(position + 1, 4)
    && block.text == f.text
    && ShowsType(f, block.kind) && ShowsBox(f, block.bbox) && ShowsConfidence(f, block.confidence)
    && ShowsPage(f, onPage, block.sourcePage) && ShowsExtractor(f, fallback, block.extractor)
  }

  lemma BlockShows(f: Fragment, position: nat, onPage: int, fallback: string)
    ensures Shows(f, position, onPage, fallback, BlockFromFragment(f, position + 1, onPage, fallback))
  {
    hide ReviewWarnings, Padded;
    assert IsBlank(f.text) <==> forall i :: 0 <= i < |f.text| ==> IsSpace(f.text[i]);
  }

  /** `_confidence_value` */
  method ParseConfidence(value: Option<Num>, scalePercent: bool) returns (confidence: real, invalid: bool)
    ensures invalid <==> value.Some? && (value.value.NotFinite? || value.value.value < 0.0)
    ensures confidence ==
      if value.None? then 0.95
      else if invalid then 0.0
      else if scalePercent then value.value.value / 100.0
      else value.value.value
  {
    match value {
      case None => confidence, invalid := 0.95, false;
      case Some(NotFinite) => confidence, invalid := 0.0, true;
      case Some(Finite(x)) =>
        if x < 0.0 {
          return 0.0, true;
        }
        confidence, invalid := if scalePercent then x / 100.0 else x, false;
    }
  }

  /** The warning for a block, which the source counts from 0. */
  method TellCause(cause: Cause, index: nat) returns (warning: string)
    requires index > 0
    ensures warning == CauseWarning(cause, index)
  {
    hide DecimalText;
    var text := "parser marked block requires_review";
    if cause == BoxMissing {
      text := "bbox missing; block marked requires_review";
    } else if cause == TextEmpty {
      text := "text empty; block marked requires_review";
    } else if cause == NoConfidence {
      text := "confidence missing; block marked requires_review";
    } else if cause == BadConfidence {
      text := "confidence invalid; block marked requires_review";
    } else if cause == LowConfidence {
      text := "low confidence; block marked requires_review";
    }
    warning := "blocks[" + DecimalText(index - 1) + "]." + text;
  }

  /** A cause to review the block, if it is given. */
  method NoteCause(before: Review, given: bool, cause: Cause, index: nat) returns (after: Review)
    requires index > 0
    ensures after == Review(before.requiresReview || given, before.warnings + Reason(given, cause, index))
  {
    after := before;
    if given {
      var warning := TellCause(cause, index);
      after := Review(true, before.warnings + [warning]);
    }
  }

  /** The checks of `_block_from_fragment` that ask for review, one after the other. */
  method ReviewOf(f: Fragment, index: nat, invalid: bool) returns (review: Review)
    requires index > 0 && invalid == InvalidConfidence(f)
    ensures review == Review(!IsClean(f), ReviewWarnings(f, index))
  {
    hide Warnings, IsBlank, CauseWarning, InvalidConfidence, HasBox, Reason;
    var engine := f.engine != None && f.engine != Some("");
    review := NoteCause(Review(false, []), !HasBox(f), BoxMissing, index);
    review := NoteCause(review, IsBlank(f.text), TextEmpty, index);
    review := NoteCause(review, f.missingConfidence || (f.confidence == None && engine), NoConfidence, index);
    review := NoteCause(review, invalid, BadConfidence, index);
    review := NoteCause(review, f.lowConfidence, LowConfidence, index);
    review := NoteCause(review, f.requiresReview, MarkedByParser, index);
    review := Review(review.requiresReview || Warnings(f) != [], review.warnings + Warnings(f));
  }

  /** The confidence that `_block_from_fragment` leaves after its checks. */
  method ConfidenceOf(f: Fragment) returns (confidence: real, invalid: bool)
    ensures confidence == BlockConfidence(f) && invalid == InvalidConfidence(f)
  {
    var engine := f.engine != None && f.engine != Some("");
    confidence, invalid := ParseConfidence(f.confidence, engine);
    if !HasBox(f) {
      confidence := 0.0;
    }
    if IsBlank(f.text) {
      confidence := 0.0;
    }
    if f.missingConfidence {
      confidence := 0.0;
    } else if f.confidence == None && engine {
      confidence := 0.0;
    }
  }

  /** `_block_from_fragment` */
  method MakeBlock(f: Fragment, index: nat, pageNumber: int, extractor: string) returns (block: Block)
    requires index > 0
    ensures block == BlockFromFragment(f, index, pageNumber, extractor)
  {
    hide ExtractorRef, BlockType, BoxOf, PageNumber, Padded, IsClean, ReviewWarnings, BlockConfidence;
    var confidence, invalid := ConfidenceOf(f);
    var review := ReviewOf(f, index, invalid);
    block := Block("block-" + Padded(index, 4), BlockType(f), f.text, Some(PageNumber(f.pageNumber, pageNumber)),
      BoxOf(f), ExtractorRef(f, extractor), Finite(confidence), review);
  }

  lemma BlockIdsDiffer(i: nat, k: nat)
    requires BlockId(i) == BlockId(k)
    ensures i == k
  {
    assert BlockId(i)[6..] == Padded(i, 4) && BlockId(k)[6..] == Padded(k, 4);
    PaddedReadsBack(i, 4);
    PaddedReadsBack(k, 4);
  }

  /** A block asks for review exactly when it says why. */
  lemma ReviewHasReason(f: Fragment, index: nat, pageNumber: int, extractor: string)
    requires index > 0
    ensures var review := BlockFromFragment(f, index, pageNumber, extractor).review;
      review.requiresReview <==> review.warnings != []
  {
  }

  // ---- Building the document

  /** The size a page gives in points, in pixels, or in a unit of its own. */
  datatype PageSize = InPoints(width: Num, height: Num) | InPixels(width: Num, height: Num)
    | InUnit(width: Num, height: Num, unit: string)

  datatype ParserPage = ParserPage(number: RawNumber, size: PageSize, fragments: seq<Value>, regions: seq<Value>)

  function FiniteOrZero(n: Num): Num {
    if n.Finite? then n else Finite(0.0)
  }

  /** The page at `index`, counted from 1. */
  function PageAt(page: ParserPage, index: nat): Page {
    Page(Some(PageNumber(page.number, index)), FiniteOrZero(page.size.width), FiniteOrZero(page.size.height),
         match page.size case InPoints(_, _) => "pt" case InPixels(_, _) => "px" case InUnit(_, _, unit) => unit)
  }

  datatype Item = Item(fragment: Fragment, pageNumber: int)

  ghost function PageItems(page: ParserPage, index: nat): seq<Item> {
    var values, number := page.fragments + page.regions, PageNumber(page.number, index);
    seq(|values|, k requires 0 <= k < |values| => Item(Data(values[k]), number))
  }

  /** Every fragment and region with the number of its page, in order. */
  ghost function Items(pages: seq<ParserPage>): seq<Item> {
    if pages == [] then [] else Items(pages[..|pages| - 1]) + PageItems(pages[|pages| - 1], |pages|)
  }

  ghost function BlocksOf(items: seq<Item>, extractor: string): seq<Block> {
    seq(|items|, k requires 0 <= k < |items| => BlockFromFragment(items[k].fragment, k + 1, items[k].pageNumber, extractor))
  }

  ghost function PagesOf(pages: seq<ParserPage>): seq<Page> {
    seq(|pages|, k requires 0 <= k < |pages| => PageAt(pages[k], k + 1))
  }

  ghost function BlockWarnings(blocks: seq<Block>): seq<string> {
    if blocks == [] then [] else BlockWarnings(blocks[..|blocks| - 1]) + blocks[|blocks| - 1].review.warnings
  }

  /** What `from_parser_output` builds from adapted pages. */
  ghost function Built(pages: seq<ParserPage>, id: string, sourceType: string, extractor: string): Document {
    var blocks := BlocksOf(Items(pages), extractor);
    Document(SCHEMA_VERSION, id, sourceType, PagesOf(pages), blocks,
             BlockWarnings(blocks)
             + (if pages == [] then ["parser_output.pages missing or empty"] else [])
             + (if blocks == [] then ["parser_output produced no text blocks"] else []))
  }

  lemma NoPages()
    ensures Items([]) == [] && PagesOf([]) == []
  {
  }

  lemma OneMorePage(pages: seq<ParserPage>, i: nat)
    requires i < |pages|
    ensures Items(pages[..i + 1]) == Items(pages[..i]) + PageItems(pages[i], i + 1)
    ensures PagesOf(pages[..i + 1]) == PagesOf(pages[..i]) + [PageAt(pages[i], i + 1)]
    ensures var values, items := pages[i].fragments + pages[i].regions, PageItems(pages[i], i + 1);
      |items| == |values| && forall k :: 0 <= k < |values| ==>
        items[k] == Item(Data(values[k]), PageNumber(pages[i].number, i + 1))
  {
    hide PageAt, Data, PageNumber;
    assert pages[..i + 1][..i] == pages[..i];
  }

  lemma NoBlocks(extractor: string)
    ensures BlocksOf([], extractor) == [] && BlockWarnings([]) == []
  {
  }

  lemma OneMoreBlock(items: seq<Item>, item: Item, extractor: string)
    ensures var block := BlockFromFragment(item.fragment, |items| + 1, item.pageNumber, extractor);
      && BlocksOf(items + [item], extractor) == BlocksOf(items, extractor) + [block]
      && BlockWarnings(BlocksOf(items + [item], extractor)) == BlockWarnings(BlocksOf(items, extractor))
        + block.review.warnings
  {
    hide BlockFromFragment;
    var blocks, block := BlocksOf(items, extractor),
      BlockFromFragment(item.fragment, |items| + 1, item.pageNumber, extractor);
    assert (blocks + [block])[..|blocks|] == blocks;
  }

  // ---- The document, without saying how it is built

  /** Where the blocks of page `i` start. */
  ghost function Start(pages: seq<ParserPage>, i: nat): nat
    requires i <= |pages|
  {
    if i == 0 then 0 else Start(pages, i - 1) + |pages[i - 1].fragments| + |pages[i - 1].regions|
  }

  /** The page's own number, or else its position counted from 1. */
  ghost function NumberOf(pages: seq<ParserPage>, i: nat): int
    requires i < |pages|
  {
    match pages[i].number case Missing => i + 1 case Whole(n) => n case NotWhole => 0
  }

  ghost predicate ShowsSize(given: PageSize, page: Page) {
    && page.width == (if given.width.Finite? then given.width else Finite(0.0))
    && page.height == (if given.height.Finite? then given.height else Finite(0.0))
    && (given.InPoints? ==> page.unit == "pt") && (given.InPixels? ==> page.unit == "px")
    && (given.InUnit? ==> page.unit == given.unit)
  }

  /** Every page in order, with its number and size; every fragment of a page and then every region
      as a block, page by page, showing what it says. */
  ghost predicate ShowsAll(pages: seq<ParserPage>, fallback: string, document: Document) {
    && |document.pages| == |pages|
    && (forall i :: 0 <= i < |pages| ==>
          document.pages[i].number == Some(NumberOf(pages, i)) && ShowsSize(pages[i].size, document.pages[i]))
    && |document.blocks| == Start(pages, |pages|)
    && (forall i, k :: 0 <= i < |pages| && 0 <= k < |pages[i].fragments| ==>
          ShowsItem(pages, i, pages[i].fragments[k], Start(pages, i) + k, fallback, document))
    && (forall i, k :: 0 <= i < |pages| && 0 <= k < |pages[i].regions| ==>
          ShowsItem(pages, i, pages[i].regions[k], Start(pages, i) + |pages[i].fragments| + k, fallback, document))
  }

  ghost predicate ShowsItem(pages: seq<ParserPage>, i: nat, value: Value, position: nat, fallback: string,
      document: Document)
    requires i < |pages|
  {
    && position < |document.blocks|
    && match value
       case Dict(f) => Shows(f, position, NumberOf(pages, i), fallback, document.blocks[position])
       case Converted(f) => Shows(f, position, NumberOf(pages, i), fallback, document.blocks[position])
       case Unmapped(_) => document.blocks[position].text == "" && document.blocks[position].review.requiresReview
  }

  lemma {:induction false} ItemAt(pages: seq<ParserPage>, i: nat, k: nat)
    requires i < |pages| && k < |pages[i].fragments| + |pages[i].regions|
    ensures |Items(pages)| == Start(pages, |pages|)
    ensures Start(pages, i) + k < |Items(pages)|
    ensures Items(pages)[Start(pages, i) + k] ==
      Item(Data((pages[i].fragments + pages[i].regions)[k]), NumberOf(pages, i))
  {
    var n := |pages| - 1;
    assert pages == pages[..n] + [pages[n]];
    ItemCount(pages);
    ItemCount(pages[..n]);
    SameStart(pages, n, n);
    if i < n {
      ItemAt(pages[..n], i, k);
      SameStart(pages, n, i);
    }
  }

  lemma {:induction false} ItemCount(pages: seq<ParserPage>)
    ensures |Items(pages)| == Start(pages, |pages|)
  {
    if pages != [] {
      ItemCount(pages[..|pages| - 1]);
      SameStart(pages, |pages| - 1, |pages| - 1);
    }
  }

  lemma {:induction false} SameStart(pages: seq<ParserPage>, n: nat, i: nat)
    requires i <= n <= |pages|
    ensures Start(pages[..n], i) == Start(pages, i)
  {
    if i > 0 {
      SameStart(pages, n, i - 1);
    }
  }

  lemma ItemIsShown(pages: seq<ParserPage>, id: string, sourceType: string, extractor: string, i: nat, k: nat)
    requires i < |pages| && k < |pages[i].fragments| + |pages[i].regions|
    ensures ShowsItem(pages, i, (pages[i].fragments + pages[i].regions)[k], Start(pages, i) + k, extractor,
      Built(pages, id, sourceType, extractor))
  {
    hide Shows, BlockFromFragment, Items, Start;
    ItemAt(pages, i, k);
    var value, position := (pages[i].fragments + pages[i].regions)[k], Start(pages, i) + k;
    BlockShows(Data(value), position, NumberOf(pages, i), extractor);
    NothingShown(position, NumberOf(pages, i), extractor);
  }

  lemma NothingShown(position: nat, onPage: int, extractor: string)
    ensures BlockFromFragment(EMPTY, position + 1, onPage, extractor).text == ""
    ensures BlockFromFragment(EMPTY, position + 1, onPage, extractor).review.requiresReview
  {
  }

  lemma BuiltShowsAll(pages: seq<ParserPage>, id: string, sourceType: string, extractor: string)
    ensures ShowsAll(pages, extractor, Built(pages, id, sourceType, extractor))
  {
    hide ShowsItem, Items, BlocksOf, BlockWarnings, Start;
    var document := Built(pages, id, sourceType, extractor);
    ItemCount(pages);
    BlockCount(pages, extractor);
    forall i, k | 0 <= i < |pages| && 0 <= k < |pages[i].fragments|
      ensures ShowsItem(pages, i, pages[i].fragments[k], Start(pages, i) + k, extractor, document)
    {
      ItemIsShown(pages, id, sourceType, extractor, i, k);
    }
    forall i, k | 0 <= i < |pages| && 0 <= k < |pages[i].regions|
      ensures ShowsItem(pages, i, pages[i].regions[k], Start(pages, i) + |pages[i].fragments| + k, extractor, document)
    {
      ItemIsShown(pages, id, sourceType, extractor, i, |pages[i].fragments| + k);
    }
  }

  lemma BlockCount(pages: seq<ParserPage>, extractor: string)
    ensures |BlocksOf(Items(pages), extractor)| == |Items(pages)|
  {
  }

  method FromParserOutput(pages: seq<ParserPage>, id: string, sourceType: string, extractor: string)
    returns (document: Document)
    ensures document == Built(pages, id, sourceType, extractor)
    ensures document.schemaVersion == "document-ir/v1" && document.id == id && document.sourceType == sourceType
    ensures ShowsAll(pages, extractor, document)
  {
    hide ShowsAll;
    hide BlockFromFragment, PageAt, BlocksOf, BlockWarnings, PagesOf, Items, PageItems;
    NoBlocks(extractor);
    NoPages();
    var outPages: seq<Page>, blocks: seq<Block>, warnings: seq<string> := [], [], [];
    ghost var items: seq<Item> := [];
    for i := 0 to |pages|
      invariant items == Items(pages[..i])
      invariant outPages == PagesOf(pages[..i]) && |outPages| == i
      invariant blocks == BlocksOf(items, extractor) && |blocks| == |items|
      invariant warnings == BlockWarnings(blocks)
    {
      OneMorePage(pages, i);
      var page := PageAt(pages[i], i + 1);
      outPages := outPages + [page];
      var values := pages[i].fragments + pages[i].regions;
      ghost var before, more := items, PageItems(pages[i], i + 1);
      for k := 0 to |values|
        invariant items == before + more[..k]
        invariant blocks == BlocksOf(items, extractor) && |blocks| == |items|
        invariant warnings == BlockWarnings(blocks)
      {
        var block := MakeBlock(Data(values[k]), |blocks| + 1, PageNumber(pages[i].number, i + 1), extractor);
        OneMoreBlock(items, more[k], extractor);
        assert more[..k + 1] == more[..k] + [more[k]];
        blocks, warnings := blocks + [block], warnings + block.review.warnings;
        items := items + [more[k]];
      }
    }
    assert pages[..|pages|] == pages;
    if outPages == [] {
      warnings := warnings + ["parser_output.pages missing or empty"];
    }
    if blocks == [] {
      warnings := warnings + ["parser_output produced no text blocks"];
    }
    document := Document("document-ir/v1", id, sourceType, outPages, blocks, warnings);
    BuiltShowsAll(pages, id, sourceType, extractor);
  }
}
