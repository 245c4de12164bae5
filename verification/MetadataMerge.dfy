/** Document IR v0 metadata merged into the fragments that a page already has
    (core/ir/document_ir_v1.py, `_merge_v0_metadata_into_fragment_list`). */
module MetadataMerge {
  import opened Prelude
  import opened PythonText
  import opened Sorting
  import opened ParserFragments

  // ---- How well a source fits a target

  /** The parser's own extractor name, and rounding to six decimals. */
  datatype Context = Context(fallback: string, round6: real -> real)

  datatype BoxKey = BoxKey(x: real, y: real, width: real, height: real, unit: string, origin: string)

  ghost predicate IsNumber(n: Option<Num>) {
    n.Some? && n.value.Finite?
  }

  /** `_fragment_bbox_match_key` */
  ghost function KeyOf(ctx: Context, bbox: Option<RawBox>): Option<BoxKey> {
    if bbox.Some? && IsNumber(bbox.value.x) && IsNumber(bbox.value.y)
      && IsNumber(bbox.value.width) && IsNumber(bbox.value.height)
    then
      var b := bbox.value;
      Some(BoxKey(ctx.round6(b.x.value.value), ctx.round6(b.y.value.value),
                  ctx.round6(b.width.value.value), ctx.round6(b.height.value.value), b.unit, b.origin))
    else None
  }

  datatype Rank = Rank(bbox: nat, extractor: nat)

  ghost predicate TypesAgree(target: Fragment, source: Fragment) {
    match ExplicitType(target)
    case None => IsBlockType(FragmentType(source))
    case Some(t) => t == FragmentType(source)
  }

  /** `_fragments_match_rank_for_v0_metadata` */
  ghost function MatchRank(ctx: Context, target: Fragment, source: Fragment): Option<Rank> {
    var targetName := ExtractorName(ExtractorOr(target.extractor, target.engine), ctx.fallback);
    var sourceName := ExtractorName(ExtractorOr(source.extractor, source.engine), ctx.fallback);
    var targetKey, sourceKey := KeyOf(ctx, target.bbox), KeyOf(ctx, source.bbox);
    if !TypesAgree(target, source) || target.text != source.text then None
    else if targetName != sourceName && targetName != ctx.fallback then None
    else if targetKey.Some? && sourceKey.Some? && targetKey != sourceKey then None
    else
      Some(Rank(if targetKey.Some? && sourceKey.Some? then 0 else 1, if targetName == sourceName then 0 else 1))
  }

  ghost function RankOf(ctx: Context, value: Value, source: Fragment): Option<Rank> {
    if value.Unmapped? then None else MatchRank(ctx, Data(value), source)
  }

  ghost predicate Fits(ctx: Context, value: Value, source: Fragment) {
    RankOf(ctx, value, source).Some?
  }

  /** The order of `(rank, index)` pairs. */
  ghost predicate Before(a: Rank, i: int, b: Rank, k: int) {
    || a.bbox < b.bbox
    || (a.bbox == b.bbox && a.extractor < b.extractor)
    || (a == b && i < k)
  }

  /** Source `k` would be taken rather than the one at `i`. */
  ghost predicate Better(ctx: Context, value: Value, sources: seq<Fragment>, k: int, i: int)
    requires 0 <= i < |sources| && 0 <= k < |sources| && Fits(ctx, value, sources[i]) && Fits(ctx, value, sources[k])
  {
    Before(RankOf(ctx, value, sources[k]).value, k, RankOf(ctx, value, sources[i]).value, i)
  }

  ghost predicate KnownSameBox(ctx: Context, value: Value, source: Fragment) {
    KeyOf(ctx, Data(value).bbox).Some? && KeyOf(ctx, Data(value).bbox) == KeyOf(ctx, source.bbox)
  }

  ghost predicate SameExtractor(ctx: Context, value: Value, source: Fragment) {
    ExtractorName(ExtractorOr(Data(value).extractor, Data(value).engine), ctx.fallback)
      == ExtractorName(ExtractorOr(source.extractor, source.engine), ctx.fallback)
  }

  /** A source fits a target that has a mapping, the same text, the same type (or none, if the source's
      is a block type), the same extractor (or none of its own), and no other box. */
  lemma FitsMeans(ctx: Context, value: Value, source: Fragment)
    ensures Fits(ctx, value, source) <==>
      && !value.Unmapped? && Data(value).text == source.text
      && (ExplicitType(Data(value)) == Some(FragmentType(source))
          || (ExplicitType(Data(value)) == None && FragmentType(source) in BLOCK_TYPES))
      && (SameExtractor(ctx, value, source)
          || ExtractorName(ExtractorOr(Data(value).extractor, Data(value).engine), ctx.fallback) == ctx.fallback)
      && (KnownSameBox(ctx, value, source) || KeyOf(ctx, Data(value).bbox) == None || KeyOf(ctx, source.bbox) == None)
  {
    hide ExtractorName, ExtractorOr, KeyOf, ExplicitType;
  }

  /** What makes a fitting source better: first that its box is known to be the target's, then that
      its extractor is, then that it comes first. */
  lemma WhatIsBetter(ctx: Context, value: Value, sources: seq<Fragment>, k: nat, i: nat)
    requires i < |sources| && k < |sources| && Fits(ctx, value, sources[i]) && Fits(ctx, value, sources[k])
    ensures Better(ctx, value, sources, k, i) <==>
      var boxK, boxI := KnownSameBox(ctx, value, sources[k]), KnownSameBox(ctx, value, sources[i]);
      var nameK, nameI := SameExtractor(ctx, value, sources[k]), SameExtractor(ctx, value, sources[i]);
      (boxK && !boxI) || (boxK == boxI && ((nameK && !nameI) || (nameK == nameI && k < i)))
  {
    hide ExtractorName, ExtractorOr, TypesAgree, KeyOf;
  }

  /** The index of the least `(rank, index)` pair among the sources that fit. */
  ghost function BestMatch(ctx: Context, value: Value, sources: seq<Fragment>): (best: Option<nat>)
    ensures best.Some? ==> best.value < |sources| && Fits(ctx, value, sources[best.value])
  {
    if sources == [] then None
    else
      var n := |sources| - 1;
      var best := BestMatch(ctx, value, sources[..n]);
      if !Fits(ctx, value, sources[n]) then best
      else if best.None? || Better(ctx, value, sources, n, best.value) then Some(n)
      else best
  }

  lemma {:induction false} BestMatchIsBest(ctx: Context, value: Value, sources: seq<Fragment>, k: nat)
    requires k < |sources| && Fits(ctx, value, sources[k])
    ensures BestMatch(ctx, value, sources).Some?
    ensures !Better(ctx, value, sources, k, BestMatch(ctx, value, sources).value)
  {
    hide RankOf;
    if k < |sources| - 1 {
      BestMatchIsBest(ctx, value, sources[..|sources| - 1], k);
    }
  }

  // ---- What the assignment of sources to targets must be

  /** No earlier target took source `q`. */
  ghost predicate Free(picks: seq<Option<nat>>, q: nat) {
    Some(q) !in picks
  }

  ghost predicate Chooses(ctx: Context, value: Value, sources: seq<Fragment>, before: seq<Option<nat>>,
      pick: Option<nat>) {
    match pick
    case None => forall q :: 0 <= q < |sources| && Free(before, q) ==> !Fits(ctx, value, sources[q])
    case Some(p) =>
      && p < |sources| && Free(before, p) && Fits(ctx, value, sources[p])
      && forall q :: 0 <= q < |sources| && Free(before, q) && Fits(ctx, value, sources[q]) ==>
           !Better(ctx, value, sources, q, p)
  }

  /** One target after the other takes the best source that the earlier ones left. */
  ghost predicate Assigned(ctx: Context, values: seq<Value>, sources: seq<Fragment>, picks: seq<Option<nat>>) {
    && |picks| == |values|
    && (values == [] || (
          var n := |values| - 1;
          && Assigned(ctx, values[..n], sources, picks[..n])
          && Chooses(ctx, values[n], sources, picks[..n], picks[n])))
  }

  lemma OneChoice(ctx: Context, value: Value, sources: seq<Fragment>, before: seq<Option<nat>>, p: Option<nat>,
      q: Option<nat>)
    requires Chooses(ctx, value, sources, before, p) && Chooses(ctx, value, sources, before, q)
    ensures p == q
  {
    hide RankOf, Free;
  }

  /** The order of the targets leaves no choice. */
  lemma {:induction false} AssignmentIsUnique(ctx: Context, values: seq<Value>, sources: seq<Fragment>,
      p: seq<Option<nat>>, q: seq<Option<nat>>)
    requires Assigned(ctx, values, sources, p) && Assigned(ctx, values, sources, q)
    ensures p == q
  {
    hide Chooses;
    if values != [] {
      var n := |values| - 1;
      assert Chooses(ctx, values[n], sources, p[..n], p[n]) && Chooses(ctx, values[n], sources, q[..n], q[n]);
      AssignmentIsUnique(ctx, values[..n], sources, p[..n], q[..n]);
      OneChoice(ctx, values[n], sources, p[..n], p[n], q[n]);
      assert p == p[..n] + [p[n]] && q == q[..n] + [q[n]];
    }
  }

  lemma {:induction false} AssignedAt(ctx: Context, values: seq<Value>, sources: seq<Fragment>,
      picks: seq<Option<nat>>, i: nat)
    requires Assigned(ctx, values, sources, picks) && i < |values|
    ensures Chooses(ctx, values[i], sources, picks[..i], picks[i])
  {
    hide Chooses;
    var n := |values| - 1;
    if i < n {
      AssignedAt(ctx, values[..n], sources, picks[..n], i);
      assert picks[..n][..i] == picks[..i];
    } else {
      assert values != [] && i == n;
      assert Chooses(ctx, values[n], sources, picks[..n], picks[n]);
    }
  }

  /** No source goes to two targets. */
  lemma TakenOnce(ctx: Context, values: seq<Value>, sources: seq<Fragment>, picks: seq<Option<nat>>, i: nat, k: nat)
    requires Assigned(ctx, values, sources, picks) && i < k < |values| && picks[i].Some?
    ensures picks[i] != picks[k]
  {
    AssignedAt(ctx, values, sources, picks, k);
    assert picks[..k][i] == picks[i];
  }

  /** A target that takes nothing fits no source that is left over, and a target that takes one
      would not rather have had a left-over one. */
  lemma NothingLeftFits(ctx: Context, values: seq<Value>, sources: seq<Fragment>, picks: seq<Option<nat>>, i: nat,
      q: nat)
    requires Assigned(ctx, values, sources, picks) && i < |values| && q < |sources| && Free(picks, q)
    ensures picks[i].None? ==> !Fits(ctx, values[i], sources[q])
    ensures picks[i].Some? ==> picks[i].value < |sources| && Fits(ctx, values[i], sources[picks[i].value])
    ensures picks[i].Some? && Fits(ctx, values[i], sources[q]) ==>
      Better(ctx, values[i], sources, picks[i].value, q)
  {
    AssignedAt(ctx, values, sources, picks, i);
    assert Free(picks[..i], q);
    assert picks[i] in picks;
  }

  ghost function FreeSources(count: nat, picks: seq<Option<nat>>): set<nat> {
    set q: nat | q < count && Free(picks, q)
  }

  ghost function At(sources: seq<Fragment>, indices: seq<nat>): seq<Fragment>
    requires forall k :: 0 <= k < |indices| ==> indices[k] < |sources|
  {
    seq(|indices|, k requires 0 <= k < |indices| => sources[indices[k]])
  }

  lemma FreeAreSources(count: nat, picks: seq<Option<nat>>)
    ensures forall k :: 0 <= k < |SortedKeys(FreeSources(count, picks))| ==>
      SortedKeys(FreeSources(count, picks))[k] < count
  {
    var keys := SortedKeys(FreeSources(count, picks));
    forall k | 0 <= k < |keys| ensures keys[k] < count {
      assert keys[k] in keys;
    }
  }

  /** The sources that no target took, in order. */
  ghost function LeftOver(sources: seq<Fragment>, picks: seq<Option<nat>>): seq<Fragment> {
    FreeAreSources(|sources|, picks);
    At(sources, SortedKeys(FreeSources(|sources|, picks)))
  }

  ghost predicate InRange(picks: seq<Option<nat>>, count: nat) {
    forall i :: 0 <= i < |picks| && picks[i].Some? ==> picks[i].value < count
  }

  lemma {:induction false} PicksInRange(ctx: Context, values: seq<Value>, sources: seq<Fragment>,
      picks: seq<Option<nat>>)
    requires Assigned(ctx, values, sources, picks)
    ensures InRange(picks, |sources|)
  {
    forall i | 0 <= i < |picks| && picks[i].Some? ensures picks[i].value < |sources| {
      AssignedAt(ctx, values, sources, picks, i);
    }
  }

  ghost function Taken(sources: seq<Fragment>, picks: seq<Option<nat>>): seq<Fragment>
    requires InRange(picks, |sources|)
  {
    if picks == [] then []
    else
      var n := |picks| - 1;
      if picks[n].Some? then Taken(sources, picks[..n]) + [sources[picks[n].value]] else Taken(sources, picks[..n])
  }

  /** What each target becomes. */
  ghost function Merged(values: seq<Value>, sources: seq<Fragment>, picks: seq<Option<nat>>): (r: seq<Value>)
    requires |picks| == |values| && InRange(picks, |sources|)
  {
    seq(|values|, i requires 0 <= i < |values| =>
      if picks[i].None? then values[i] else WithMetadata(values[i], sources[picks[i].value]))
  }

  // ---- Giving a target the metadata of its source

  /** The source's confidence replaces the target's. */
  ghost predicate Adopts(f: Fragment, source: Fragment) {
    !source.missingConfidence && source.confidence.Some? && (source.lowConfidence || f.confidence.None?)
  }

  ghost function FirstExtractor(f: Fragment, source: Fragment): Option<Extractor> {
    if f.extractor.None? && f.engine.None? then source.extractor else f.extractor
  }

  ghost function FirstEngine(f: Fragment, source: Fragment): Option<string> {
    if f.extractor.None? && f.engine.None? && source.extractor.None? then source.engine else f.engine
  }

  /** An adopted confidence is no percentage, so the entry `engine` gives way to `extractor`. */
  ghost function MergedExtractor(f: Fragment, source: Fragment): Option<Extractor> {
    var e, n, given := FirstExtractor(f, source), FirstEngine(f, source), ExtractorOr(source.extractor, source.engine);
    if Adopts(f, source) && n.Some? && e.None? then (if Truthy(given) then given else Some(Named(n.value))) else e
  }

  ghost function MergedEngine(f: Fragment, source: Fragment): Option<string> {
    if Adopts(f, source) then None else FirstEngine(f, source)
  }

  ghost function MergedKind(f: Fragment, source: Fragment): Option<string> {
    var sourceType := FragmentType(source);
    if f.kind.None? && f.typ.None? && IsBlockType(sourceType) && sourceType != "paragraph" then Some(sourceType)
      else f.kind
  }

  ghost function MergedConfidence(f: Fragment, source: Fragment): Option<Num> {
    if source.missingConfidence then None else if Adopts(f, source) then source.confidence else f.confidence
  }

  /** The result field by field; `AddMetadata` computes it step by step. */
  ghost function MergedFragment(f: Fragment, source: Fragment): Fragment {
    var warnings := Dedupe(Warnings(f) + Warnings(source));
    f.(extractor := MergedExtractor(f, source), engine := MergedEngine(f, source), kind := MergedKind(f, source),
       rows := if f.rows == [] then source.rows else f.rows,
       requiresReview := f.requiresReview || source.requiresReview,
       lowConfidence := f.lowConfidence || source.lowConfidence,
       missingConfidence := f.missingConfidence || source.missingConfidence,
       confidence := MergedConfidence(f, source),
       warnings := if warnings == [] then f.warnings else warnings)
  }

  ghost function WithMetadata(value: Value, source: Fragment): Value {
    if value.Dict? then Dict(MergedFragment(value.fragment, source)) else value
  }

  /** `_preserve_normalized_v0_confidence`, on the two entries that it touches. */
  method PreserveNormalizedConfidence(extractor: Option<Extractor>, engine: Option<string>, source: Fragment)
    returns (extractor': Option<Extractor>, engine': Option<string>)
    ensures engine'.None?
    ensures engine.None? || extractor.Some? ==> extractor' == extractor
    ensures engine.Some? && extractor.None? ==>
      extractor' == var given := ExtractorOr(source.extractor, source.engine); if Truthy(given) then given
        else Some(Named(engine.value))
  {
    extractor', engine' := extractor, engine;
    if engine'.None? {
      return;
    }
    if extractor'.None? {
      var given := ExtractorOr(source.extractor, source.engine);
      extractor' := if Truthy(given) then given else Some(Named(engine'.value));
    }
    engine' := None;
  }

  /** The confidence part of `_fragment_with_v0_metadata`, on the entries that it touches. */
  method AddConfidence(f: Fragment, source: Fragment) returns (extractor: Option<Extractor>, engine: Option<string>,
      confidence: Option<Num>, missing: bool)
    ensures extractor == MergedExtractor(f, source) && engine == MergedEngine(f, source)
    ensures confidence == MergedConfidence(f, source) && (missing <==> f.missingConfidence || source.missingConfidence)
  {
    hide Truthy, ExtractorOr;
    extractor, engine, confidence, missing := f.extractor, f.engine, f.confidence, f.missingConfidence;
    if extractor.None? && engine.None? {
      if source.extractor.Some? {
        extractor := source.extractor;
      } else if source.engine.Some? {
        engine := source.engine;
      }
    }
    if source.missingConfidence {
      missing, confidence := true, None;
    } else if source.lowConfidence && source.confidence.Some? {
      confidence := source.confidence;
      extractor, engine := PreserveNormalizedConfidence(extractor, engine, source);
    } else if confidence.None? && source.confidence.Some? {
      confidence := source.confidence;
      extractor, engine := PreserveNormalizedConfidence(extractor, engine, source);
    }
  }

  /** `_fragment_with_v0_metadata`; the variables are the entries of its `output`. */
  method AddMetadata(value: Value, source: Fragment) returns (r: Value)
    ensures r == WithMetadata(value, source)
  {
    hide Dedupe, Warnings, FragmentType, IsBlockType, MergedExtractor, MergedEngine, MergedConfidence;
    if !value.Dict? {
      return value;
    }
    var f := value.fragment;
    var kind, rows, requiresReview, lowConfidence := f.kind, f.rows, f.requiresReview, f.lowConfidence;
    if rows == [] && source.rows != [] {
      rows := source.rows;
    }
    if source.requiresReview {
      requiresReview := true;
    }
    if source.lowConfidence {
      lowConfidence := true;
    }
    if kind.None? && f.typ.None? {
      var sourceType := FragmentType(source);
      if IsBlockType(sourceType) && sourceType != "paragraph" {
        kind := Some(sourceType);
      }
    }
    var extractor, engine, confidence, missing := AddConfidence(f, source);
    var warnings := Dedupe(Warnings(f) + Warnings(source));
    r := Dict(f.(extractor := extractor, engine := engine, rows := rows, requiresReview := requiresReview,
                 lowConfidence := lowConfidence, kind := kind, missingConfidence := missing,
                 confidence := confidence, warnings := if warnings == [] then f.warnings else warnings));
  }

  // ---- The ranking as it runs

  /** `_explicit_v0_metadata_fragment_type` */
  method ReadType(f: Fragment) returns (explicit: Option<string>)
    ensures explicit == ExplicitType(f)
  {
    var raw := "";
    if f.kind.Some? && f.kind.value != "" {
      raw := f.kind.value;
    } else if f.typ.Some? {
      raw := f.typ.value;
    }
    if raw == "" {
      return None;
    }
    if raw in {"heading", "paragraph", "table", "field", "footnote", "list_item"} {
      return Some(raw);
    }
    explicit := Some(if f.preserveInvalidType then raw else "paragraph");
  }

  /** `_extractor_name_value` of the extractor, or else of the engine */
  method ReadName(f: Fragment, fallback: string) returns (name: string)
    ensures name == ExtractorName(ExtractorOr(f.extractor, f.engine), fallback)
  {
    hide IsBlank;
    name := fallback;
    match f.extractor {
      case Some(Named(text)) =>
        if text != "" {
          name := if IsBlank(text) then fallback else text;
          return;
        }
      case Some(Record(fields)) =>
        if fields != map[] {
          name := if "name" in fields && !IsBlank(fields["name"]) then fields["name"] else fallback;
          return;
        }
      case None =>
    }
    if f.engine.Some? {
      name := if IsBlank(f.engine.value) then fallback else f.engine.value;
    }
  }

  /** `_fragment_bbox_match_key` */
  method ReadKey(ctx: Context, bbox: Option<RawBox>) returns (key: Option<BoxKey>)
    ensures key == KeyOf(ctx, bbox)
  {
    match bbox {
      case Some(RawBox(Some(Finite(x)), Some(Finite(y)), Some(Finite(width)), Some(Finite(height)), unit, origin)) =>
        key := Some(BoxKey(ctx.round6(x), ctx.round6(y), ctx.round6(width), ctx.round6(height), unit, origin));
      case _ => key := None;
    }
  }

  /** `_fragments_match_rank_for_v0_metadata` */
  method RankMatch(ctx: Context, target: Fragment, source: Fragment) returns (rank: Option<Rank>)
    ensures rank == MatchRank(ctx, target, source)
  {
    hide ExplicitType, ExtractorName, ExtractorOr, KeyOf;
    rank := None;
    var targetType := ReadType(target);
    var explicit := ReadType(source);
    var sourceType := if explicit == None then "paragraph" else explicit.value;
    if targetType == None {
      if sourceType !in BLOCK_TYPES {
        return;
      }
    } else if targetType.value != sourceType {
      return;
    }
    if target.text != source.text {
      return;
    }
    var targetName := ReadName(target, ctx.fallback);
    var sourceName := ReadName(source, ctx.fallback);
    var extractorRank;
    if targetName == sourceName {
      extractorRank := 0;
    } else if targetName == ctx.fallback {
      extractorRank := 1;
    } else {
      return;
    }
    var targetKey := ReadKey(ctx, target.bbox);
    var sourceKey := ReadKey(ctx, source.bbox);
    if targetKey == None || sourceKey == None {
      return Some(Rank(1, extractorRank));
    }
    if targetKey == sourceKey {
      rank := Some(Rank(0, extractorRank));
    }
  }

  /** `min(ranked_matches)` */
  method FindBest(ctx: Context, value: Value, sources: seq<Fragment>) returns (best: Option<nat>)
    ensures best == BestMatch(ctx, value, sources)
  {
    hide MatchRank;
    best := None;
    if value.Unmapped? {
      NothingFitsUnmapped(ctx, value, sources);
      return;
    }
    var least := Rank(0, 0);
    for i := 0 to |sources|
      invariant best == BestMatch(ctx, value, sources[..i])
      invariant best.Some? ==> MatchRank(ctx, Data(value), sources[best.value]) == Some(least)
    {
      assert sources[..i + 1][..i] == sources[..i];
      var rank := RankMatch(ctx, Data(value), sources[i]);
      if rank.Some? {
        var r := rank.value;
        if best == None || r.bbox < least.bbox || (r.bbox == least.bbox && r.extractor < least.extractor) {
          best, least := Some(i), r;
        }
      }
    }
    assert sources[..|sources|] == sources;
  }

  lemma {:induction false} NothingFitsUnmapped(ctx: Context, value: Value, sources: seq<Fragment>)
    requires value.Unmapped?
    ensures BestMatch(ctx, value, sources) == None
  {
    if sources != [] {
      NothingFitsUnmapped(ctx, value, sources[..|sources| - 1]);
    }
  }

  // ---- The merge

  /** The sources still remaining, each with its index in the original list. */
  ghost predicate Tracks(sources: seq<Fragment>, picks: seq<Option<nat>>, remaining: seq<Fragment>, left: seq<nat>) {
    && Ascending(left)
    && (forall q: nat :: q in left <==> q < |sources| && Free(picks, q))
    && |left| == |remaining|
    && (forall k :: 0 <= k < |left| ==> left[k] < |sources| && remaining[k] == sources[left[k]])
  }

  lemma InOrder(keys: seq<nat>, i: nat, k: nat)
    requires Ascending(keys) && i < |keys| && k < |keys|
    ensures keys[i] < keys[k] <==> i < k
  {
  }

  /** The best of the remaining sources is the best of the free ones. */
  lemma BestOfLeft(ctx: Context, value: Value, sources: seq<Fragment>, picks: seq<Option<nat>>,
      remaining: seq<Fragment>, left: seq<nat>)
    requires Tracks(sources, picks, remaining, left)
    ensures var best := BestMatch(ctx, value, remaining);
      Chooses(ctx, value, sources, picks, if best.Some? then Some(left[best.value]) else None)
  {
    hide MatchRank, RankOf, Ascending;
    var best := BestMatch(ctx, value, remaining);
    if best.Some? {
      assert left[best.value] in left;
    }
    forall q: nat | q < |sources| && Free(picks, q) && Fits(ctx, value, sources[q])
      ensures best.Some? && !Better(ctx, value, sources, q, left[best.value])
    {
      assert q in left;
      var k :| 0 <= k < |left| && left[k] == q;
      assert remaining[k] == sources[q] && Fits(ctx, value, remaining[k]);
      BestMatchIsBest(ctx, value, remaining, k);
      InOrder(left, k, best.value);
    }
  }

  lemma RemoveAt(left: seq<nat>, k: nat)
    requires Ascending(left) && k < |left|
    ensures Ascending(left[..k] + left[k + 1..])
    ensures forall q :: q in left[..k] + left[k + 1..] <==> q in left && q != left[k]
  {
    var rest := left[..k] + left[k + 1..];
    forall q ensures q in rest <==> q in left && q != left[k] {
      if q in left && q != left[k] {
        var i :| 0 <= i < |left| && left[i] == q;
        assert rest[if i < k then i else i - 1] == q;
      }
    }
  }

  lemma FreeAfter(picks: seq<Option<nat>>, p: nat, q: nat)
    ensures Free(picks + [Some(p)], q) <==> Free(picks, q) && q != p
    ensures Free(picks + [None], q) <==> Free(picks, q)
  {
    assert (picks + [Some(p)])[|picks|] == Some(p);
  }

  lemma TrackPop(sources: seq<Fragment>, picks: seq<Option<nat>>, remaining: seq<Fragment>, left: seq<nat>, k: nat)
    requires Tracks(sources, picks, remaining, left) && k < |left|
    ensures Tracks(sources, picks + [Some(left[k])], remaining[..k] + remaining[k + 1..], left[..k] + left[k + 1..])
    ensures multiset(remaining) == multiset(remaining[..k] + remaining[k + 1..]) + multiset{sources[left[k]]}
  {
    hide Ascending;
    RemoveAt(left, k);
    forall q: nat ensures Free(picks + [Some(left[k])], q) <==> Free(picks, q) && q != left[k] {
      FreeAfter(picks, left[k], q);
    }
    assert remaining == remaining[..k] + [remaining[k]] + remaining[k + 1..];
  }

  lemma LeftIsLeftOver(sources: seq<Fragment>, picks: seq<Option<nat>>, remaining: seq<Fragment>, left: seq<nat>)
    requires Tracks(sources, picks, remaining, left)
    ensures remaining == LeftOver(sources, picks)
  {
    hide Ascending;
    SortedIsUnique(left, SortedKeys(FreeSources(|sources|, picks)));
  }

  /** The best sources left went to the targets, one after the other; none was lost or used twice,
      and those remaining kept their order. */
  ghost predicate IsMerge(ctx: Context, values: seq<Value>, sources: seq<Fragment>, picks: seq<Option<nat>>,
      merged: seq<Value>, remaining: seq<Fragment>) {
    && Assigned(ctx, values, sources, picks) && InRange(picks, |sources|)
    && merged == Merged(values, sources, picks)
    && remaining == LeftOver(sources, picks)
    && multiset(sources) == multiset(Taken(sources, picks)) + multiset(remaining)
  }

  lemma MergeStep(ctx: Context, values: seq<Value>, sources: seq<Fragment>, picks: seq<Option<nat>>, i: nat,
      pick: Option<nat>)
    requires i < |values| && Assigned(ctx, values[..i], sources, picks) && InRange(picks, |sources|)
    requires Chooses(ctx, values[i], sources, picks, pick)
    ensures Assigned(ctx, values[..i + 1], sources, picks + [pick]) && InRange(picks + [pick], |sources|)
    ensures Merged(values[..i + 1], sources, picks + [pick]) == Merged(values[..i], sources, picks)
      + [if pick.None? then values[i] else WithMetadata(values[i], sources[pick.value])]
    ensures Taken(sources, picks + [pick]) == Taken(sources, picks) + if pick.None? then [] else [sources[pick.value]]
  {
    hide WithMetadata, Fits, Free;
    assert values[..i + 1][..i] == values[..i];
    assert (picks + [pick])[..i] == picks;
    assert Taken(sources, picks) + [] == Taken(sources, picks);
  }

  /** `_merge_v0_metadata_into_fragment_list`: a serial dictatorship, in which no source is lost
      or used twice. */
  method MergeFragmentList(ctx: Context, values: seq<Value>, sources: seq<Fragment>)
    returns (merged: seq<Value>, remaining: seq<Fragment>)
    ensures exists picks :: IsMerge(ctx, values, sources, picks, merged, remaining)
  {
    hide Ascending, LeftOver, WithMetadata, Assigned, InRange, Chooses, Fits, Free, BestMatch;
    merged, remaining := [], sources;
    ghost var picks: seq<Option<nat>> := [];
    ghost var left: seq<nat> := seq(|sources|, k requires 0 <= k < |sources| => k);
    AllLeft(sources);
    NothingAssigned(ctx, sources);
    for i := 0 to |values|
      invariant Assigned(ctx, values[..i], sources, picks) && InRange(picks, |sources|) && |picks| == i
      invariant merged == Merged(values[..i], sources, picks)
      invariant Tracks(sources, picks, remaining, left)
      invariant multiset(sources) == multiset(Taken(sources, picks)) + multiset(remaining)
    {
      var best := FindBest(ctx, values[i], remaining);
      BestOfLeft(ctx, values[i], sources, picks, remaining, left);
      ghost var pick := if best.Some? then Some(left[best.value]) else None;
      MergeStep(ctx, values, sources, picks, i, pick);
      if best.None? {
        merged := merged + [values[i]];
        TrackNone(sources, picks, remaining, left);
      } else {
        var k := best.value;
        var value := AddMetadata(values[i], remaining[k]);
        TrackPop(sources, picks, remaining, left, k);
        merged, remaining := merged + [value], remaining[..k] + remaining[k + 1..];
        left := left[..k] + left[k + 1..];
      }
      picks := picks + [pick];
    }
    assert values[..|values|] == values;
    LeftIsLeftOver(sources, picks, remaining, left);
    assert IsMerge(ctx, values, sources, picks, merged, remaining);
  }

  lemma NothingAssigned(ctx: Context, sources: seq<Fragment>)
    ensures Assigned(ctx, [], sources, []) && InRange([], |sources|)
  {
  }

  lemma TrackNone(sources: seq<Fragment>, picks: seq<Option<nat>>, remaining: seq<Fragment>, left: seq<nat>)
    requires Tracks(sources, picks, remaining, left)
    ensures Tracks(sources, picks + [None], remaining, left)
  {
    hide Ascending;
    forall q: nat ensures Free(picks + [None], q) <==> Free(picks, q) {
      FreeAfter(picks, 0, q);
    }
  }

  lemma AllLeft(sources: seq<Fragment>)
    ensures Tracks(sources, [], sources, seq(|sources|, k requires 0 <= k < |sources| => k))
  {
    var left: seq<nat> := seq(|sources|, k requires 0 <= k < |sources| => k);
    forall q: nat | q < |sources| ensures q in left {
      assert left[q] == q;
    }
  }
}
