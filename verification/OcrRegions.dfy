/** OCR regions clipped to their page, the status of an OCR candidate
    (core/parsers/ocr_extraction.py), and the Document IR that its pages become. */
module OcrRegions {
  import opened Prelude
  import opened PythonText
  import opened ParserFragments
  import opened DocumentIR
  import opened DocumentValidator

  datatype RawRegion = RawRegion(text: string, x0: real, y0: real, x1: real, y1: real, confidence: Option<real>)

  /** A rasterised page and what the engine recognised on it. */
  datatype RawPage = RawPage(width: nat, height: nat, regions: seq<RawRegion>)

  datatype Box = Box(x: real, y: real, width: real, height: real)

  datatype OcrRegion = OcrRegion(text: string, pageNumber: nat, bbox: Box, confidence: Option<real>,
      lowConfidence: bool, engine: string)

  datatype OcrPage = OcrPage(number: nat, width: nat, height: nat, regions: seq<OcrRegion>, status: string,
      lowConfidenceCount: nat)

  // ---- Clipping

  function Clip(v: real, end: nat): real {
    var positive := if v < 0.0 then 0.0 else v;
    if positive > end as real then end as real else positive
  }

  /** `_normalize_bbox` */
  function NormalizeBox(raw: RawRegion, width: nat, height: nat): Option<Box> {
    var x0, y0, x1, y1 := Clip(raw.x0, width), Clip(raw.y0, height), Clip(raw.x1, width), Clip(raw.y1, height);
    if x1 - x0 <= 0.0 || y1 - y0 <= 0.0 then None else Some(Box(x0, y0, x1 - x0, y1 - y0))
  }

  ghost predicate InBox(box: Box, x: real, y: real) {
    box.x <= x <= box.x + box.width && box.y <= y <= box.y + box.height
  }

  ghost predicate InRaw(raw: RawRegion, x: real, y: real) {
    raw.x0 <= x <= raw.x1 && raw.y0 <= y <= raw.y1
  }

  ghost predicate OnPage(x: real, y: real, width: nat, height: nat) {
    0.0 <= x <= width as real && 0.0 <= y <= height as real
  }

  ghost predicate StrictlyInside(raw: RawRegion, width: nat, height: nat, x: real, y: real) {
    raw.x0 < x < raw.x1 && raw.y0 < y < raw.y1 && 0.0 < x < width as real && 0.0 < y < height as real
  }

  /** The box kept is the part of the region that is on the page; a region is dropped exactly when
      that part has no area. */
  lemma ClippingIsIntersection(raw: RawRegion, width: nat, height: nat)
    ensures var box := NormalizeBox(raw, width, height);
      && (box.Some? ==> forall x, y :: InBox(box.value, x, y) <==> InRaw(raw, x, y) && OnPage(x, y, width, height))
      && (box.None? <==> forall x, y :: !StrictlyInside(raw, width, height, x, y))
  {
    var box := NormalizeBox(raw, width, height);
    if box.Some? {
      var x, y := box.value.x + box.value.width / 2.0, box.value.y + box.value.height / 2.0;
      assert StrictlyInside(raw, width, height, x, y);
    }
  }

  // ---- Regions, pages and the candidate

  ghost predicate IsLow(confidence: Option<real>, min: real) {
    confidence.None? || confidence.value < min
  }

  ghost function RegionOf(raw: RawRegion, box: Box, number: nat, engine: string, min: real): OcrRegion {
    OcrRegion(raw.text, number, box, raw.confidence, IsLow(raw.confidence, min), engine)
  }

  ghost function RegionsOf(raws: seq<RawRegion>, number: nat, page: RawPage, engine: string,
      min: real): seq<OcrRegion> {
    if raws == [] then []
    else
      var init, raw := RegionsOf(raws[..|raws| - 1], number, page, engine, min), raws[|raws| - 1];
      var box := NormalizeBox(raw, page.width, page.height);
      if IsBlank(raw.text) || box.None? then init else init + [RegionOf(raw, box.value, number, engine, min)]
  }

  /** `_normalize_regions` */
  method NormalizeRegions(page: RawPage, number: nat, engine: string, min: real) returns (regions: seq<OcrRegion>)
    ensures regions == RegionsOf(page.regions, number, page, engine, min)
  {
    hide NormalizeBox, IsBlank;
    regions := [];
    for i := 0 to |page.regions|
      invariant regions == RegionsOf(page.regions[..i], number, page, engine, min)
    {
      assert page.regions[..i + 1][..i] == page.regions[..i];
      var raw := page.regions[i];
      if IsBlank(raw.text) {
        continue;
      }
      var box := NormalizeBox(raw, page.width, page.height);
      if box.None? {
        continue;
      }
      var low := raw.confidence == None || raw.confidence.value < min;
      regions := regions + [OcrRegion(raw.text, number, box.value, raw.confidence, low, engine)];
    }
    assert page.regions[..|page.regions|] == page.regions;
  }

  ghost function LowCount(regions: seq<OcrRegion>): nat {
    if regions == [] then 0
    else LowCount(regions[..|regions| - 1]) + if regions[|regions| - 1].lowConfidence then 1 else 0
  }

  /** `_page_status` */
  ghost function PageStatus(regions: seq<OcrRegion>, lowCount: nat): string {
    if regions == [] then "no-text" else if lowCount > 0 then "low-confidence" else "ok"
  }

  ghost function PageOf(page: RawPage, number: nat, engine: string, min: real): OcrPage {
    var regions := RegionsOf(page.regions, number, page, engine, min);
    OcrPage(number, page.width, page.height, regions, PageStatus(regions, LowCount(regions)), LowCount(regions))
  }

  ghost function Extracted(pages: seq<RawPage>, engine: string, min: real): seq<OcrPage> {
    seq(|pages|, i requires 0 <= i < |pages| => PageOf(pages[i], i + 1, engine, min))
  }

  ghost function Statuses(pages: seq<OcrPage>): set<string> {
    set page | page in pages :: page.status
  }

  /** The status that `compare_ocr_extractors` gives an extraction. */
  ghost function CandidateStatus(pages: seq<OcrPage>): string {
    if pages == [] || Statuses(pages) == {"no-text"} then "no-text"
    else if "low-confidence" in Statuses(pages) then "low-confidence"
    else "ok"
  }

  /** The page loop of `extract_scanned_pdf_ocr`. */
  method ExtractPages(pages: seq<RawPage>, engine: string, min: real) returns (out: seq<OcrPage>)
    ensures out == Extracted(pages, engine, min)
  {
    hide RegionsOf;
    out := [];
    for i := 0 to |pages|
      invariant out == Extracted(pages, engine, min)[..i]
    {
      var regions := NormalizeRegions(pages[i], i + 1, engine, min);
      var low := CountLow(regions);
      var status := "no-text";
      if regions != [] {
        status := if low > 0 then "low-confidence" else "ok";
      }
      out := out + [OcrPage(i + 1, pages[i].width, pages[i].height, regions, status, low)];
    }
  }

  method CountLow(regions: seq<OcrRegion>) returns (count: nat)
    ensures count == LowCount(regions)
  {
    count := 0;
    for i := 0 to |regions|
      invariant count == LowCount(regions[..i])
    {
      assert regions[..i + 1][..i] == regions[..i];
      if regions[i].lowConfidence {
        count := count + 1;
      }
    }
    assert regions[..|regions|] == regions;
  }

  lemma {:induction false} LowCountSplits(a: seq<OcrRegion>, b: seq<OcrRegion>)
    ensures LowCount(a + b) == LowCount(a) + LowCount(b)
  {
    if b == [] {
      assert a + b == a;
    } else {
      assert (a + b)[..|a + b| - 1] == a + b[..|b| - 1];
      LowCountSplits(a, b[..|b| - 1]);
    }
  }

  /** The counts that `compare_ocr_extractors` sums over the pages of an extraction are those of
      all its regions. */
  method SumCounts(pages: seq<OcrPage>) returns (regionCount: nat, lowCount: nat)
    requires forall i :: 0 <= i < |pages| ==> pages[i].lowConfidenceCount == LowCount(pages[i].regions)
    ensures regionCount == |AllRegions(pages)| && lowCount == LowCount(AllRegions(pages))
  {
    regionCount, lowCount := 0, 0;
    for i := 0 to |pages|
      invariant regionCount == |AllRegions(pages[..i])| && lowCount == LowCount(AllRegions(pages[..i]))
    {
      assert pages[..i + 1][..i] == pages[..i];
      LowCountSplits(AllRegions(pages[..i]), pages[i].regions);
      regionCount, lowCount := regionCount + |pages[i].regions|, lowCount + pages[i].lowConfidenceCount;
    }
    assert pages[..|pages|] == pages;
  }

  // ---- The extraction as parser output

  ghost function FragmentOf(r: OcrRegion): Fragment {
    EMPTY.(text := r.text, pageNumber := Whole(r.pageNumber),
           bbox := Some(RawBox(Some(Finite(r.bbox.x)), Some(Finite(r.bbox.y)), Some(Finite(r.bbox.width)),
             Some(Finite(r.bbox.height)), "px", "top-left")),
           confidence := if r.confidence.Some? then Some(Finite(r.confidence.value)) else None,
           lowConfidence := r.lowConfidence, engine := Some(r.engine))
  }

  ghost function ParserPageOf(page: OcrPage): ParserPage {
    ParserPage(Whole(page.number), InPixels(Finite(page.width as real), Finite(page.height as real)), [],
               seq(|page.regions|, k requires 0 <= k < |page.regions| => Dict(FragmentOf(page.regions[k]))))
  }

  ghost function ParserPages(pages: seq<OcrPage>): seq<ParserPage> {
    seq(|pages|, i requires 0 <= i < |pages| => ParserPageOf(pages[i]))
  }

  // ---- What every extracted region is

  ghost predicate IsNormal(r: OcrRegion, number: nat, page: RawPage, engine: string, min: real) {
    && r.pageNumber == number && r.engine == engine && !IsBlank(r.text)
    && r.lowConfidence == IsLow(r.confidence, min)
    && 0.0 <= r.bbox.x && 0.0 < r.bbox.width && r.bbox.x + r.bbox.width <= page.width as real
    && 0.0 <= r.bbox.y && 0.0 < r.bbox.height && r.bbox.y + r.bbox.height <= page.height as real
  }

  lemma {:induction false} RegionsAreNormal(raws: seq<RawRegion>, number: nat, page: RawPage, engine: string, min: real)
    ensures forall r :: r in RegionsOf(raws, number, page, engine, min) ==> IsNormal(r, number, page, engine, min)
  {
    if raws != [] {
      RegionsAreNormal(raws[..|raws| - 1], number, page, engine, min);
    }
  }

  lemma {:induction false} LowCountZero(regions: seq<OcrRegion>)
    ensures LowCount(regions) == 0 <==> forall r :: r in regions ==> !r.lowConfidence
  {
    if regions != [] {
      LowCountZero(regions[..|regions| - 1]);
      assert regions == regions[..|regions| - 1] + [regions[|regions| - 1]];
    }
  }

  /** All regions of an extraction, page by page. */
  ghost function AllRegions(pages: seq<OcrPage>): seq<OcrRegion> {
    if pages == [] then [] else AllRegions(pages[..|pages| - 1]) + pages[|pages| - 1].regions
  }

  lemma {:induction false} AllRegionsMembers(pages: seq<OcrPage>)
    ensures forall page, r :: page in pages && r in page.regions ==> r in AllRegions(pages)
    ensures forall r :: r in AllRegions(pages) ==> exists page :: page in pages && r in page.regions
  {
    if pages != [] {
      var init, last := pages[..|pages| - 1], pages[|pages| - 1];
      AllRegionsMembers(init);
      assert pages == init + [last];
      forall r | r in AllRegions(pages) ensures exists page :: page in pages && r in page.regions {
        if r in last.regions {
          assert last in pages;
        } else {
          assert r in AllRegions(init);
          var page :| page in init && r in page.regions;
          assert page in pages;
        }
      }
    }
  }

  /** The candidate is ok exactly when there is a region and none has low confidence. */
  lemma OkStatus(pages: seq<RawPage>, engine: string, min: real)
    ensures var out := Extracted(pages, engine, min);
      CandidateStatus(out) == "ok" <==> AllRegions(out) != [] && forall r :: r in AllRegions(out) ==> !r.lowConfidence
  {
    hide RegionsOf, AllRegions;
    var out := Extracted(pages, engine, min);
    AllRegionsMembers(out);
    FirstIsMember(AllRegions(out));
    forall i | 0 <= i < |out| ensures out[i].status in Statuses(out) {
      assert out[i] in out;
    }
    forall i | 0 <= i < |out|
      ensures out[i].status == "no-text" <==> out[i].regions == []
      ensures out[i].status == "low-confidence" <==> exists r :: r in out[i].regions && r.lowConfidence
    {
      LowCountZero(out[i].regions);
      StatusTexts();
    }
    StatusTexts();
    if Statuses(out) == {"no-text"} {
      forall page | page in out ensures page.regions == [] {
        assert page.status in Statuses(out);
      }
    } else if AllRegions(out) == [] {
      forall i | 0 <= i < |out| ensures out[i].regions == [] {
        assert out[i] in out;
        if out[i].regions != [] {
          assert out[i].regions[0] in AllRegions(out);
        }
      }
      NoTextAnywhere(out);
    }
  }

  lemma NoTextAnywhere(pages: seq<OcrPage>)
    requires forall i :: 0 <= i < |pages| ==> pages[i].status == "no-text"
    ensures pages == [] || Statuses(pages) == {"no-text"}
  {
    if pages != [] {
      assert pages[0] in pages && pages[0].status in Statuses(pages);
    }
  }

  lemma StatusTexts()
    ensures "no-text" != "ok" && "low-confidence" != "ok" && "no-text" != "low-confidence"
  {
    assert |"no-text"| == 7 && |"ok"| == 2 && |"low-confidence"| == 14;
  }

  // ---- The Document IR of an extraction

  lemma {:induction false} ItemsAreRegions(pages: seq<OcrPage>)
    ensures |Items(ParserPages(pages))| == |AllRegions(pages)|
    ensures forall k :: 0 <= k < |AllRegions(pages)| ==>
      Items(ParserPages(pages))[k].fragment == FragmentOf(AllRegions(pages)[k])
  {
    hide FragmentOf;
    if pages != [] {
      var n := |pages| - 1;
      ItemsAreRegions(pages[..n]);
      assert ParserPages(pages)[..n] == ParserPages(pages[..n]);
      var more := PageItems(ParserPages(pages)[n], n + 1);
      assert forall k :: 0 <= k < |pages[n].regions| ==> more[k].fragment == FragmentOf(pages[n].regions[k]);
    }
  }

  /** A clipped region becomes a block that stands on its page; only a confidence above 100
      percent makes it break a rule. */
  lemma RegionBlock(r: OcrRegion, number: nat, raw: RawPage, engine: string, min: real, index: nat, pageNumber: int,
      extractor: string, page: Page)
    requires index > 0 && engine != "" && IsNormal(r, number, raw, engine, min)
    requires page == Page(Some(number), Finite(raw.width as real), Finite(raw.height as real), "px")
    ensures var block := BlockFromFragment(FragmentOf(r), index, pageNumber, extractor);
      && StandsOn(block, page) && block.kind in BLOCK_TYPES && block.confidence.Finite? && 0.0 <= block.confidence.value
      && (block.confidence.value <= 1.0 <==> r.confidence.None? || r.confidence.value <= 100.0)
    ensures IsClean(FragmentOf(r)) <==> !r.lowConfidence && r.confidence.Some? && r.confidence.value >= 0.0
  {
    hide BlockId, ReviewWarnings, ExtractorRef, IsBlank;
    assert Warnings(FragmentOf(r)) == [];
  }

  ghost predicate ConfidencesAtMost100(regions: seq<OcrRegion>) {
    forall k :: 0 <= k < |regions| && regions[k].confidence.Some? ==> regions[k].confidence.value <= 100.0
  }

  ghost predicate ConfidencesAtLeast0(regions: seq<OcrRegion>) {
    forall k :: 0 <= k < |regions| && regions[k].confidence.Some? ==> regions[k].confidence.value >= 0.0
  }

  ghost predicate ComesFrom(r: OcrRegion, pages: seq<RawPage>, i: int, engine: string, min: real) {
    0 <= i < |pages| && IsNormal(r, i + 1, pages[i], engine, min)
  }

  lemma WhereRegionsComeFrom(pages: seq<RawPage>, engine: string, min: real, k: nat) returns (i: nat)
    requires k < |AllRegions(Extracted(pages, engine, min))|
    ensures ComesFrom(AllRegions(Extracted(pages, engine, min))[k], pages, i, engine, min)
  {
    hide IsNormal, AllRegions, RegionsOf;
    var out := Extracted(pages, engine, min);
    AllRegionsMembers(out);
    var r := AllRegions(out)[k];
    assert r in AllRegions(out);
    var page :| page in out && r in page.regions;
    i :| 0 <= i < |out| && out[i] == page;
    RegionsAreNormal(pages[i].regions, i + 1, pages[i], engine, min);
  }

  /** The Document IR of an extraction is well formed exactly when there is a page and no
      confidence exceeds 100 percent: clipping leaves nothing else to break. */
  lemma OcrDocumentIsWellFormed(pages: seq<RawPage>, engine: string, min: real, id: string, sourceType: string,
      extractor: string)
    requires engine != "" && id != "" && sourceType in SOURCE_TYPES
    requires forall i :: 0 <= i < |pages| ==> pages[i].width > 0 && pages[i].height > 0
    ensures var out := Extracted(pages, engine, min);
      WellFormed(Built(ParserPages(out), id, sourceType, extractor)) <==>
        pages != [] && ConfidencesAtMost100(AllRegions(out))
  {
    hide RegionsOf, AllRegions, FragmentOf, BlockFromFragment, IsNormal, Items;
    var out := Extracted(pages, engine, min);
    var doc, regions := Built(ParserPages(out), id, sourceType, extractor), AllRegions(out);
    ItemsAreRegions(out);
    assert |doc.pages| == |pages|;
    forall i | 0 <= i < |pages|
      ensures doc.pages[i] == Page(Some(i + 1), Finite(pages[i].width as real), Finite(pages[i].height as real), "px")
        && WellFormedPage(doc.pages[i])
    {
    }
    forall k | 0 <= k < |regions|
      ensures WellFormedBlock(doc.blocks[k], doc.pages) <==>
        regions[k].confidence.None? || regions[k].confidence.value <= 100.0
    {
      var i := WhereRegionsComeFrom(pages, engine, min, k);
      var item := Items(ParserPages(out))[k];
      RegionBlock(regions[k], i + 1, pages[i], engine, min, k + 1, item.pageNumber, extractor, doc.pages[i]);
    }
  }

  /** The validator waives review of an extraction exactly when its candidate status is "ok" and
      no confidence is outside 0 to 100 percent. */
  lemma ReviewFollowsStatus(pages: seq<RawPage>, engine: string, min: real, id: string, sourceType: string,
      extractor: string)
    requires engine != "" && id != "" && sourceType in SOURCE_TYPES
    requires forall i :: 0 <= i < |pages| ==> pages[i].width > 0 && pages[i].height > 0
    ensures var out := Extracted(pages, engine, min);
      NeedsNoReview(Built(ParserPages(out), id, sourceType, extractor)) <==>
        CandidateStatus(out) == "ok" && ConfidencesAtMost100(AllRegions(out)) && ConfidencesAtLeast0(AllRegions(out))
  {
    hide RegionsOf, FragmentOf, BlockFromFragment, IsNormal, Items, WellFormed, IsClean, CandidateStatus, AllRegions,
      Built, NeedsNoReview;
    var out := Extracted(pages, engine, min);
    var regions := AllRegions(out);
    OcrDocumentIsWellFormed(pages, engine, min, id, sourceType, extractor);
    OnlyCleanGoesUnreviewed(ParserPages(out), id, sourceType, extractor);
    OkStatus(pages, engine, min);
    ItemsAreRegions(out);
    forall k | 0 <= k < |regions|
      ensures IsClean(Items(ParserPages(out))[k].fragment) <==>
        !regions[k].lowConfidence && regions[k].confidence.Some? && regions[k].confidence.value >= 0.0
      ensures regions[k].confidence.None? ==> regions[k].lowConfidence
      ensures regions[k] in regions
    {
      var i := WhereRegionsComeFrom(pages, engine, min, k);
      RegionClean(regions[k], i + 1, pages[i], engine, min);
    }
    NoRegions(pages, engine, min);
  }

  lemma RegionClean(r: OcrRegion, number: nat, raw: RawPage, engine: string, min: real)
    requires engine != "" && IsNormal(r, number, raw, engine, min)
    ensures IsClean(FragmentOf(r)) <==> !r.lowConfidence && r.confidence.Some? && r.confidence.value >= 0.0
    ensures r.confidence.None? ==> r.lowConfidence
  {
    RegionBlock(r, number, raw, engine, min, 1, 1, "",
      Page(Some(number), Finite(raw.width as real), Finite(raw.height as real), "px"));
  }

  lemma NoRegions(pages: seq<RawPage>, engine: string, min: real)
    ensures pages == [] ==> AllRegions(Extracted(pages, engine, min)) == []
  {
  }
}
