/** The mappings that parsers hand over as page fragments, regions and Document IR v0 blocks,
    with the fields that core/ir/document_ir_v1.py reads. A float is an exact real; `NotFinite`
    is NaN, which the source's coercions put in place of every value that is not finite. */
module ParserFragments {
  import opened Prelude
  import opened PythonText

  datatype Num = Finite(value: real) | NotFinite

  /** A missing coordinate is `None`; the unit and the origin are read with their defaults. */
  datatype RawBox = RawBox(x: Option<Num>, y: Option<Num>, width: Option<Num>, height: Option<Num>, unit: string,
      origin: string)

  datatype RawNumber = Missing | Whole(value: int) | NotWhole

  datatype Extractor = Named(text: string) | Record(fields: map<string, string>)

  /** `confidence` is None when missing, `NotFinite` when it is not a finite number. */
  datatype Fragment = Fragment(
    kind: Option<string>, typ: Option<string>, preserveInvalidType: bool, text: string,
    pageNumber: RawNumber, bbox: Option<RawBox>, extractor: Option<Extractor>, engine: Option<string>,
    rows: seq<seq<string>>, confidence: Option<Num>, missingConfidence: bool,
    requiresReview: bool, lowConfidence: bool, warnings: seq<string>)

  const EMPTY := Fragment(None, None, false, "", Missing, None, None, None, [], None, false, false, false, [])

  /** An item of a fragment list: a dictionary, an object that converts to one (`to_dict` or a
      data class), or anything without a mapping, or with an empty one. */
  datatype Value = Dict(fragment: Fragment) | Converted(fragment: Fragment) | Unmapped(item: nat)

  /** `_to_mapping` */
  function Data(value: Value): Fragment {
    match value
    case Dict(f) => f
    case Converted(f) => f
    case Unmapped(_) => EMPTY
  }

  const BLOCK_TYPES := {"heading", "paragraph", "table", "field", "footnote", "list_item"}

  predicate IsBlockType(t: string) {
    t in BLOCK_TYPES
  }

  /** `a or b or ""` */
  function FirstText(a: Option<string>, b: Option<string>): string {
    if a.Some? && a.value != "" then a.value else if b.Some? then b.value else ""
  }

  function NonEmpty(texts: seq<string>): seq<string> {
    if texts == [] then []
    else
      var init := NonEmpty(texts[..|texts| - 1]);
      if texts[|texts| - 1] == "" then init else init + [texts[|texts| - 1]]
  }

  /** `_fragment_warnings` */
  function Warnings(f: Fragment): seq<string> {
    NonEmpty(f.warnings)
  }

  lemma {:induction false} NonEmptyMembers(texts: seq<string>)
    ensures forall w :: w in NonEmpty(texts) <==> w in texts && w != ""
  {
    if texts != [] {
      NonEmptyMembers(texts[..|texts| - 1]);
      assert texts == texts[..|texts| - 1] + [texts[|texts| - 1]];
    }
  }

  lemma {:induction false} NonEmptyKeeps(texts: seq<string>)
    requires "" !in texts
    ensures NonEmpty(texts) == texts
  {
    if texts != [] {
      NonEmptyKeeps(texts[..|texts| - 1]);
      assert texts == texts[..|texts| - 1] + [texts[|texts| - 1]];
    }
  }

  predicate Truthy(e: Option<Extractor>) {
    e.Some? && e.value != Named("") && e.value != Record(map[])
  }

  /** `a or b`, for an extractor and an engine name */
  function ExtractorOr(a: Option<Extractor>, b: Option<string>): Option<Extractor> {
    if Truthy(a) then a else if b.Some? then Some(Named(b.value)) else None
  }

  /** `_extractor_name_value` */
  ghost function ExtractorName(e: Option<Extractor>, default: string): string {
    match e
    case None => default
    case Some(Named(text)) => if IsBlank(text) then default else text
    case Some(Record(fields)) =>
      if "name" in fields && !IsBlank(fields["name"]) then fields["name"] else default
  }

  /** `_explicit_v0_metadata_fragment_type` */
  function ExplicitType(f: Fragment): Option<string> {
    var raw := FirstText(f.kind, f.typ);
    if raw == "" then None
    else if IsBlockType(raw) || f.preserveInvalidType then Some(raw)
    else Some("paragraph")
  }

  /** `_v0_metadata_fragment_type` */
  function FragmentType(f: Fragment): string {
    if ExplicitType(f).Some? then ExplicitType(f).value else "paragraph"
  }
}
