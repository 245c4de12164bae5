/** What the v0 metadata merge does to a whole page, and whether the review flags, warnings and
    confidences that it moves reach the Document IR blocks (core/ir/document_ir_v1.py). */
module MetadataReview {
  import opened Prelude
  import opened Sorting
  import opened ParserFragments
  import opened MetadataMerge
  import opened DocumentIR

  // ---- Fragments first, then regions: one serial dictatorship

  /** `_fragment_has_v0_merge_metadata` */
  ghost predicate HasMetadata(f: Fragment) {
    f.requiresReview || f.lowConfidence || Warnings(f) != [] || f.rows != []
  }

  ghost function WithMergeMetadata(fragments: seq<Fragment>): seq<Fragment> {
    if fragments == [] then []
    else
      var init := WithMergeMetadata(fragments[..|fragments| - 1]);
      if HasMetadata(fragments[|fragments| - 1]) then init + [fragments[|fragments| - 1]] else init
  }

  ghost function FreeKeys(count: nat, picks: seq<Option<nat>>): (keys: seq<nat>)
    ensures Ascending(keys)
    ensures forall q: nat :: q in keys <==> q < count && Free(picks, q)
  {
    SortedKeys(FreeSources(count, picks))
  }

  /** Picks among the left-over sources, as picks among all sources. */
  ghost function Lifted(keys: seq<nat>, picks: seq<Option<nat>>): seq<Option<nat>>
    requires InRange(picks, |keys|)
  {
    seq(|picks|, i requires 0 <= i < |picks| => if picks[i].None? then None else Some(keys[picks[i].value]))
  }

  lemma FreeLifted(count: nat, first: seq<Option<nat>>, second: seq<Option<nat>>, k: nat)
    requires InRange(second, |FreeKeys(count, first)|) && k < |FreeKeys(count, first)|
    ensures Free(first + Lifted(FreeKeys(count, first), second), FreeKeys(count, first)[k]) <==> Free(second, k)
  {
    hide Ascending, FreeSources;
    var keys := FreeKeys(count, first);
    var lifted := Lifted(keys, second);
    assert keys[k] in keys;
    if Some(k) in second {
      var i :| 0 <= i < |second| && second[i] == Some(k);
      assert lifted[i] == Some(keys[k]);
      assert (first + lifted)[|first| + i] == Some(keys[k]);
    }
    if Some(keys[k]) in lifted {
      var i :| 0 <= i < |lifted| && lifted[i] == Some(keys[k]);
      SameKey(keys, second[i].value, k);
      assert second[i] == Some(k);
    }
  }

  lemma SameKey(keys: seq<nat>, i: nat, k: nat)
    requires Ascending(keys) && i < |keys| && k < |keys| && keys[i] == keys[k]
    ensures i == k
  {
  }

  lemma LiftedChoice(ctx: Context, value: Value, sources: seq<Fragment>, first: seq<Option<nat>>,
      second: seq<Option<nat>>, pick: Option<nat>)
    requires InRange(second, |FreeKeys(|sources|, first)|)
    requires Chooses(ctx, value, LeftOver(sources, first), second, pick)
    ensures var keys := FreeKeys(|sources|, first);
      Chooses(ctx, value, sources, first + Lifted(keys, second), if pick.None? then None else Some(keys[pick.value]))
  {
    hide RankOf, Ascending, Free, FreeSources;
    var keys := FreeKeys(|sources|, first);
    var rest := LeftOver(sources, first);
    FreeAreSources(|sources|, first);
    forall k: nat | k < |keys|
      ensures rest[k] == sources[keys[k]] && (Free(first + Lifted(keys, second), keys[k]) <==> Free(second, k)) {
      FreeLifted(|sources|, first, second, k);
    }
    forall q: nat | q < |sources| && Free(first + Lifted(keys, second), q) ensures q in keys {
      StillFree(first, Lifted(keys, second), q);
    }
    if pick.Some? {
      forall q: nat | q < |sources| && Free(first + Lifted(keys, second), q) && Fits(ctx, value, sources[q])
        ensures !Better(ctx, value, sources, q, keys[pick.value])
      {
        var k :| 0 <= k < |keys| && keys[k] == q;
        assert !Better(ctx, value, rest, k, pick.value);
        InOrder(keys, k, pick.value);
      }
    }
  }

  lemma StillFree(first: seq<Option<nat>>, more: seq<Option<nat>>, q: nat)
    requires Free(first + more, q)
    ensures Free(first, q)
  {
    assert forall i :: 0 <= i < |first| ==> (first + more)[i] == first[i];
  }

  /** Giving the second list what the first one left is the same as one list after the other. */
  lemma {:induction false} Chained(ctx: Context, a: seq<Value>, b: seq<Value>, sources: seq<Fragment>,
      first: seq<Option<nat>>, second: seq<Option<nat>>)
    requires Assigned(ctx, a, sources, first) && Assigned(ctx, b, LeftOver(sources, first), second)
    ensures InRange(second, |FreeKeys(|sources|, first)|)
    ensures Assigned(ctx, a + b, sources, first + Lifted(FreeKeys(|sources|, first), second))
  {
    hide Chooses, LeftOver, Ascending;
    PicksInRange(ctx, b, LeftOver(sources, first), second);
    LeftOverSize(sources, first);
    var keys := FreeKeys(|sources|, first);
    if b == [] {
      assert a + b == a && first + Lifted(keys, second) == first;
    } else {
      var n := |b| - 1;
      assert Chooses(ctx, b[n], LeftOver(sources, first), second[..n], second[n]);
      Chained(ctx, a, b[..n], sources, first, second[..n]);
      LiftedChoice(ctx, b[n], sources, first, second[..n], second[n]);
      assert (a + b)[..|a| + n] == a + b[..n];
      assert (first + Lifted(keys, second))[..|a| + n] == first + Lifted(keys, second[..n]);
    }
  }

  lemma LeftOverSize(sources: seq<Fragment>, picks: seq<Option<nat>>)
    ensures |LeftOver(sources, picks)| == |FreeKeys(|sources|, picks)|
    ensures forall k :: 0 <= k < |LeftOver(sources, picks)| ==>
      FreeKeys(|sources|, picks)[k] < |sources| && LeftOver(sources, picks)[k] == sources[FreeKeys(|sources|, picks)[k]]
  {
    FreeAreSources(|sources|, picks);
  }

  lemma MergedChained(ctx: Context, a: seq<Value>, b: seq<Value>, sources: seq<Fragment>, first: seq<Option<nat>>,
      second: seq<Option<nat>>)
    requires Assigned(ctx, a, sources, first) && Assigned(ctx, b, LeftOver(sources, first), second)
    requires InRange(first, |sources|) && InRange(second, |LeftOver(sources, first)|)
    requires InRange(second, |FreeKeys(|sources|, first)|)
    ensures var picks := first + Lifted(FreeKeys(|sources|, first), second);
      InRange(picks, |sources|) && |picks| == |a + b|
        && Merged(a + b, sources, picks) == Merged(a, sources, first) + Merged(b, LeftOver(sources, first), second)
  {
    hide Chooses, LeftOver, Ascending, WithMetadata, FreeKeys;
    LeftOverSize(sources, first);
    var picks := first + Lifted(FreeKeys(|sources|, first), second);
    forall i | 0 <= i < |picks| && picks[i].Some? ensures picks[i].value < |sources| {
      if i >= |first| {
        assert second[i - |first|].Some?;
      }
    }
  }

  /** The fragments with metadata to merge */
  method SelectSources(inherited: seq<Fragment>) returns (sources: seq<Fragment>)
    ensures sources == WithMergeMetadata(inherited)
  {
    hide Warnings;
    sources := [];
    for i := 0 to |inherited|
      invariant sources == WithMergeMetadata(inherited[..i])
    {
      assert inherited[..i + 1][..i] == inherited[..i];
      var f := inherited[i];
      if f.requiresReview || f.lowConfidence || |Warnings(f)| > 0 || |f.rows| > 0 {
        sources := sources + [f];
      }
    }
    assert inherited[..|inherited|] == inherited;
  }

  /** `_merge_v0_metadata_into_existing_page_blocks`: the regions get what the fragments left. */
  method MergeIntoPage(ctx: Context, fragments: seq<Value>, regions: seq<Value>, inherited: seq<Fragment>)
    returns (fragments': seq<Value>, regions': seq<Value>)
    ensures |fragments'| == |fragments|
    ensures exists picks :: IsPageMerge(ctx, fragments + regions, WithMergeMetadata(inherited), picks,
      fragments' + regions')
  {
    hide Assigned, LeftOver, Merged, InRange, FreeKeys, Lifted, WithMergeMetadata;
    var sources := SelectSources(inherited);
    ghost var first, second;
    var remaining;
    fragments', remaining, first := MergeUnlessIdle(ctx, fragments, sources);
    regions', remaining, second := MergeUnlessIdle(ctx, regions, remaining);
    AssignedSize(ctx, fragments, sources, first);
    Chained(ctx, fragments, regions, sources, first, second);
    MergedChained(ctx, fragments, regions, sources, first, second);
    ghost var picks := first + Lifted(FreeKeys(|sources|, first), second);
    assert IsPageMerge(ctx, fragments + regions, sources, picks, fragments' + regions');
  }

  ghost predicate IsPageMerge(ctx: Context, values: seq<Value>, sources: seq<Fragment>, picks: seq<Option<nat>>,
      merged: seq<Value>) {
    Assigned(ctx, values, sources, picks) && |picks| == |values| && InRange(picks, |sources|)
      && merged == Merged(values, sources, picks)
  }

  lemma AssignedSize(ctx: Context, values: seq<Value>, sources: seq<Fragment>, picks: seq<Option<nat>>)
    requires Assigned(ctx, values, sources, picks) && InRange(picks, |sources|)
    ensures |picks| == |values| && |Merged(values, sources, picks)| == |values|
  {
  }

  /** Nothing is done when there are no values or no sources. */
  method MergeUnlessIdle(ctx: Context, values: seq<Value>, sources: seq<Fragment>)
    returns (merged: seq<Value>, remaining: seq<Fragment>, ghost picks: seq<Option<nat>>)
    ensures Assigned(ctx, values, sources, picks) && InRange(picks, |sources|) && |picks| == |values|
    ensures merged == Merged(values, sources, picks) && |merged| == |values|
    ensures remaining == LeftOver(sources, picks)
  {
    hide Assigned, LeftOver, InRange;
    if values == [] || sources == [] {
      merged, remaining, picks := values, sources, NoPicks(|values|);
      Idle(ctx, values, sources);
    } else {
      merged, remaining := MergeFragmentList(ctx, values, sources);
      picks :| IsMerge(ctx, values, sources, picks, merged, remaining);
      AssignedSize(ctx, values, sources, picks);
    }
  }

  ghost function NoPicks(n: nat): (picks: seq<Option<nat>>)
    ensures |picks| == n && forall i :: 0 <= i < n ==> picks[i] == None
  {
    seq(n, i => None)
  }

  lemma {:induction false} Idle(ctx: Context, values: seq<Value>, sources: seq<Fragment>)
    requires values == [] || sources == []
    ensures var picks := NoPicks(|values|);
      Assigned(ctx, values, sources, picks) && InRange(picks, |sources|) && Merged(values, sources, picks) == values
        && LeftOver(sources, picks) == sources
  {
    var picks := NoPicks(|values|);
    if values != [] {
      var n := |values| - 1;
      Idle(ctx, values[..n], sources);
      assert picks[..n] == NoPicks(|values[..n]|);
      assert Chooses(ctx, values[n], sources, picks[..n], picks[n]);
    } else {
      AllLeft(sources);
    }
    if sources == [] {
      assert LeftOver(sources, picks) == [];
    } else {
      LeftIsLeftOver(sources, picks, sources, seq(|sources|, k requires 0 <= k < |sources| => k));
    }
  }

  // ---- What reaches the blocks

  /** The review demands of `source` are all in `f`. */
  ghost predicate Carries(f: Fragment, source: Fragment) {
    && (source.requiresReview ==> f.requiresReview)
    && (source.lowConfidence ==> f.lowConfidence)
    && (source.missingConfidence ==> f.missingConfidence)
    && forall w :: w in Warnings(source) ==> w in Warnings(f)
  }

  lemma CarriesTransitive(f: Fragment, g: Fragment, h: Fragment)
    requires Carries(f, g) && Carries(g, h)
    ensures Carries(f, h)
  {
    hide Warnings;
  }

  lemma MergedWarnings(f: Fragment, source: Fragment)
    ensures forall w :: w in Warnings(MergedFragment(f, source)) <==> w in Warnings(f) || w in Warnings(source)
  {
    hide MergedExtractor, MergedEngine, MergedKind, MergedConfidence, Dedupe, NonEmpty;
    NonEmptyMembers(f.warnings);
    NonEmptyMembers(source.warnings);
    var warnings := Dedupe(Warnings(f) + Warnings(source));
    NonEmptyMembers(warnings);
    FirstIsMember(Warnings(f) + Warnings(source));
    if warnings == [] {
      assert Warnings(f) + Warnings(source) == [];
    }
  }

  /** The demands of a source reach the target that took it, unless the target is an object
      rather than a dictionary and does not make them already: then they are gone. */
  lemma DemandsReachDictionaries(value: Value, source: Fragment)
    ensures Carries(Data(WithMetadata(value, source)), source) <==> value.Dict? || Carries(Data(value), source)
  {
    hide MergedExtractor, MergedEngine, MergedKind, MergedConfidence, Warnings;
    if value.Dict? {
      MergedWarnings(value.fragment, source);
    }
  }

  /** The target keeps every demand of its own, and its text and place. */
  lemma TargetKeepsItsOwn(value: Value, source: Fragment)
    ensures Carries(Data(WithMetadata(value, source)), Data(value))
    ensures Data(WithMetadata(value, source)).text == Data(value).text
      && Data(WithMetadata(value, source)).bbox == Data(value).bbox
  {
    hide MergedExtractor, MergedEngine, MergedKind, MergedConfidence, Warnings;
    if value.Dict? {
      MergedWarnings(value.fragment, source);
    }
  }

  ghost predicate DemandsReview(f: Fragment) {
    f.requiresReview || f.lowConfidence || f.missingConfidence || Warnings(f) != []
  }

  /** A block built from a fragment that carries a demand asks for review, with the warnings. */
  lemma CarriedDemandsReachTheBlock(f: Fragment, source: Fragment, index: nat, pageNumber: int, extractor: string)
    requires index > 0 && Carries(f, source)
    ensures var review := BlockFromFragment(f, index, pageNumber, extractor).review;
      (DemandsReview(source) ==> review.requiresReview) && forall w :: w in Warnings(source) ==> w in review.warnings
  {
    hide Warnings, BlockConfidence, ExtractorRef, BlockType, BoxOf, PageNumber, BlockId;
    FirstIsMember(Warnings(source));
  }

  // ---- Confidences

  /** A confidence adopted from a source is read as it stands, never as a percentage. */
  lemma AdoptedConfidenceIsUnscaled(f: Fragment, source: Fragment)
    requires Adopts(f, source) && !InvalidConfidence(source)
    ensures !InvalidConfidence(MergedFragment(f, source))
      && ReadConfidence(MergedFragment(f, source)) == source.confidence.value.value
  {
    hide MergedExtractor, MergedKind, Warnings, Dedupe;
  }

  /** A target that names neither extractor nor engine takes the engine of its source, and its own
      confidence is then read as a percentage. */
  ghost predicate TakesEngine(f: Fragment, source: Fragment) {
    f.extractor.None? && f.engine.None? && source.extractor.None? && HasEngine(source)
  }

  /** A target that keeps its own confidence keeps its value exactly when it takes no engine, or
      the confidence is 0. */
  lemma OwnConfidenceKept(f: Fragment, source: Fragment)
    requires f.confidence.Some? && !InvalidConfidence(f) && !source.missingConfidence && !Adopts(f, source)
    ensures !InvalidConfidence(MergedFragment(f, source))
    ensures ReadConfidence(MergedFragment(f, source)) == ReadConfidence(f) <==>
      !TakesEngine(f, source) || f.confidence == Some(Finite(0.0))
  {
    hide MergedExtractor, MergedKind, Warnings, Dedupe;
  }

  // ---- Block types

  ghost function Normal(raw: string, preserve: bool): string {
    if IsBlockType(raw) || preserve then raw else "paragraph"
  }

  /** A target and its source agree on the type; the block gets that type unless the target's own
      `type` and `kind` differ (matching reads `kind` first, the block reads `type` first) or one
      of them is present but empty. */
  lemma BlockTypeIsMatchedType(f: Fragment, source: Fragment)
    requires TypesAgree(f, source)
    ensures BlockType(MergedFragment(f, source)) == FragmentType(source) <==>
      if FirstText(f.kind, f.typ) == "" then (f.kind.None? && f.typ.None?) || FragmentType(source) == "paragraph"
      else Normal(FirstText(f.typ, f.kind), f.preserveInvalidType) == Normal(FirstText(f.kind, f.typ),
        f.preserveInvalidType)
  {
    hide MergedExtractor, MergedEngine, MergedConfidence, Warnings, Dedupe;
    ParagraphIsType();
  }

  lemma ParagraphIsType()
    ensures IsBlockType("paragraph")
  {
  }
}
