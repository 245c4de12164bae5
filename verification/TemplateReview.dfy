/** Which extracted field values may be trusted by cross-field rules
    (core/ir/template_fingerprint.py, `_reviewed_template_field_values_by_id`). */
module TemplateReview {
  import opened Prelude
  import opened OutputPaths
  import opened TemplateRules

  datatype Extracted = Extracted(
    value: string, confidence: real, blockId: string, blockRequiresReview: bool, blockWarnings: seq<string>)

  /** Everything about the template and the document that the review of fields looks at. */
  datatype Context = Context(
    fmt: Formats,
    rules: seq<Rule>,
    riskRankDeclared: bool,
    definedLevels: set<string>,
    reviewLevels: set<string>,
    conflicts: Conflicts,
    outputKeys: map<string, string>,
    extracted: map<string, Option<Extracted>>) {

    function Found(fieldId: string): Option<Extracted> {
      if fieldId in extracted then extracted[fieldId] else None
    }

    function OutputKey(field: Field): string {
      FieldOutputKey(outputKeys, field)
    }

    function ConflictWarnings(field: Field): seq<ConflictWarning> {
      if OutputKey(field) in conflicts then conflicts[OutputKey(field)] else []
    }

    function RiskWarnings(field: Field): seq<RiskWarning> {
      FieldRiskWarnings(field, riskRankDeclared, definedLevels, reviewLevels)
    }

    ghost predicate RiskIsWarned(field: Field, w: RiskWarning) {
      w.field == DisplayId(field.id) && RiskWarns(field.risk, riskRankDeclared, definedLevels, reviewLevels, w)
    }

    ghost predicate RiskAccepted(field: Field) {
      RiskPasses(field.risk, riskRankDeclared, definedLevels, reviewLevels)
    }
  }

  /** `output_keys_by_field_id.get(field_id) or field.output_key or field_id` */
  function FieldOutputKey(outputKeys: map<string, string>, field: Field): string {
    if field.id in outputKeys && outputKeys[field.id] != "" then outputKeys[field.id]
    else if field.outputKey != "" then field.outputKey
    else field.id
  }

  datatype RiskWarning = RiskUndefined(field: string) | RiskMissing(field: string) | RiskNeedsReview(field: string)

  const ALWAYS_REVIEW_RISK_LEVELS := {"high", "critical"}

  /** `_template_field_risk_warnings` */
  function FieldRiskWarnings(field: Field, declared: bool, defined: set<string>,
      reviewLevels: set<string>): seq<RiskWarning> {
    var id := DisplayId(field.id);
    if field.risk.NotAString? then (if declared then [RiskUndefined(id)] else [])
    else
      var level := if field.risk.Level? then field.risk.name else "";
      if !declared then (if level in ALWAYS_REVIEW_RISK_LEVELS then [RiskNeedsReview(id)] else [])
      else if level == "" then [RiskMissing(id)]
      else if level !in defined then [RiskUndefined(id)]
      else if level in ALWAYS_REVIEW_RISK_LEVELS || level in reviewLevels then [RiskNeedsReview(id)]
      else []
  }

  // ---- What the risk of a field means

  /** The risk lets a value through: with a matrix, a level that it defines, that always passes and
      that it does not want reviewed; without one, anything but the two levels that never pass. */
  ghost predicate RiskPasses(risk: RiskLevel, declared: bool, defined: set<string>, reviewLevels: set<string>) {
    && risk != Level("high") && risk != Level("critical")
    && (declared ==> risk.Level? && risk.name != "" && risk.name in defined && risk.name !in reviewLevels)
  }

  /** The warning that the risk gives rise to. */
  ghost predicate RiskWarns(risk: RiskLevel, declared: bool, defined: set<string>, reviewLevels: set<string>,
      w: RiskWarning) {
    match w
    case RiskMissing(_) => declared && (risk == NoRiskLevel || risk == Level(""))
    case RiskUndefined(_) => declared
      && (risk == NotAString || (risk.Level? && risk.name != "" && risk.name !in defined))
    case RiskNeedsReview(_) =>
      && risk.Level? && (declared ==> risk.name != "" && risk.name in defined)
      && (risk.name == "high" || risk.name == "critical" || (declared && risk.name in reviewLevels))
  }

  /** There is no risk warning exactly when the risk lets the value through, and otherwise the one
      that says why, with the field's name. */
  lemma RiskMeans(field: Field, declared: bool, defined: set<string>, reviewLevels: set<string>)
    ensures FieldRiskWarnings(field, declared, defined, reviewLevels) == [] <==>
      RiskPasses(field.risk, declared, defined, reviewLevels)
    ensures forall w :: w in FieldRiskWarnings(field, declared, defined, reviewLevels) <==>
      w.field == DisplayId(field.id) && RiskWarns(field.risk, declared, defined, reviewLevels, w)
  {
  }

  /** Nothing but a cross-field rule can hold this field's value back. */
  ghost predicate BasePasses(ctx: Context, field: Field) {
    && field.id != ""
    && ctx.Found(field.id).Some?
    && var x := ctx.Found(field.id).value;
       && !x.blockRequiresReview
       && x.blockWarnings == []
       && ctx.RiskAccepted(field)
       && ctx.ConflictWarnings(field) == []
       && Passes(ctx.fmt, ctx.rules, field, x.value, map[], BASE)
  }

  ghost function BaseReviewed(ctx: Context, fields: seq<Field>): set<string> {
    set f | f in fields && BasePasses(ctx, f) :: f.id
  }

  /** The extracted values of the fields in `ids`. */
  ghost function ValuesOf(ctx: Context, ids: set<string>): map<string, string> {
    map id | id in ids && ctx.Found(id).Some? :: ctx.Found(id).value.value
  }

  ghost predicate CrossHolds(ctx: Context, field: Field, values: map<string, string>) {
    ctx.Found(field.id).Some? ==> Passes(ctx.fmt, ctx.rules, field, ctx.Found(field.id).value.value, values, CROSS)
  }

  /** Base-reviewed fields whose cross-field rules hold on their own values alone. */
  ghost predicate SelfSupporting(ctx: Context, fields: seq<Field>, ids: set<string>) {
    && ids <= BaseReviewed(ctx, fields)
    && forall f :: f in fields && f.id in ids ==> CrossHolds(ctx, f, ValuesOf(ctx, ids))
  }

  /** The values of the greatest self-supporting set of fields. */
  ghost predicate IsGreatestReviewed(ctx: Context, fields: seq<Field>, reviewed: map<string, string>) {
    && SelfSupporting(ctx, fields, reviewed.Keys)
    && reviewed == ValuesOf(ctx, reviewed.Keys)
    && forall ids :: SelfSupporting(ctx, fields, ids) ==> ids <= reviewed.Keys
  }

  /** What every round keeps: base-reviewed values, among them every self-supporting set. */
  ghost predicate CoversSupported(ctx: Context, fields: seq<Field>, reviewed: map<string, string>) {
    && reviewed.Keys <= BaseReviewed(ctx, fields)
    && reviewed == ValuesOf(ctx, reviewed.Keys)
    && forall ids :: SelfSupporting(ctx, fields, ids) ==> ids <= reviewed.Keys
  }

  method ReviewedFieldValues(ctx: Context, fields: seq<Field>, matchRequiresReview: bool)
    returns (reviewed: map<string, string>)
    ensures matchRequiresReview ==> reviewed == map[]
    ensures !matchRequiresReview ==> IsGreatestReviewed(ctx, fields, reviewed)
    ensures forall id :: id in reviewed ==> exists f :: f in fields && f.id == id && ctx.RiskAccepted(f)
  {
    if matchRequiresReview {
      return map[];
    }
    reviewed := BaseReviewedValues(ctx, fields);
    while true
      invariant CoversSupported(ctx, fields, reviewed)
      decreases |reviewed|
    {
      var failed := FailedFields(ctx, fields, reviewed);
      if failed == {} {
        return;
      }
      RoundKeeps(ctx, fields, reviewed, failed);
      reviewed := reviewed - failed;
    }
  }

  /** A round that removes the failed fields removes something, and nothing supported. */
  lemma RoundKeeps(ctx: Context, fields: seq<Field>, reviewed: map<string, string>, failed: set<string>)
    requires CoversSupported(ctx, fields, reviewed)
    requires {} < failed <= reviewed.Keys
    requires forall id :: id in failed ==> exists f :: f in fields && f.id == id && !CrossHolds(ctx, f, reviewed)
    ensures CoversSupported(ctx, fields, reviewed - failed)
    ensures |reviewed - failed| < |reviewed|
  {
    RemainingValues(ctx, reviewed, failed);
    forall ids | SelfSupporting(ctx, fields, ids)
      ensures ids <= (reviewed - failed).Keys
    {
      SupportedNeverFail(ctx, fields, ids, reviewed, failed);
    }
  }

  lemma RemainingValues(ctx: Context, reviewed: map<string, string>, failed: set<string>)
    requires reviewed == ValuesOf(ctx, reviewed.Keys)
    requires {} < failed <= reviewed.Keys
    ensures reviewed - failed == ValuesOf(ctx, (reviewed - failed).Keys)
    ensures |reviewed - failed| < |reviewed|
  {
    FewerKeys(reviewed - failed, reviewed);
  }

  lemma FewerKeys(fewer: map<string, string>, more: map<string, string>)
    requires fewer.Keys < more.Keys
    ensures |fewer| < |more|
  {
    SubsetSize(fewer.Keys, more.Keys);
  }

  /** The fields that pass everything but the cross-field rules, with their values. */
  method BaseReviewedValues(ctx: Context, fields: seq<Field>) returns (reviewed: map<string, string>)
    ensures reviewed.Keys == BaseReviewed(ctx, fields)
    ensures reviewed == ValuesOf(ctx, reviewed.Keys)
  {
    reviewed := map[];
    for i := 0 to |fields|
      invariant reviewed.Keys == BaseReviewed(ctx, fields[..i])
      invariant reviewed == ValuesOf(ctx, reviewed.Keys)
    {
      var field := fields[i];
      assert fields[..i + 1] == fields[..i] + [field];
      var found := ctx.Found(field.id);
      if field.id == "" || found.None? {
        continue;
      }
      var x := found.value;
      RiskMeans(field, ctx.riskRankDeclared, ctx.definedLevels, ctx.reviewLevels);
      var base := ValidationWarnings(ctx.fmt, ctx.rules, field, x.value, map[], BASE);
      if x.blockRequiresReview || x.blockWarnings != [] || ctx.RiskWarnings(field) != [] || base != []
        || ctx.ConflictWarnings(field) != []
      {
        continue;
      }
      reviewed := reviewed[field.id := x.value];
    }
    assert fields[..|fields|] == fields;
  }

  /** One round: the reviewed fields whose cross-field rules fail on the reviewed values. */
  method FailedFields(ctx: Context, fields: seq<Field>, reviewed: map<string, string>) returns (failed: set<string>)
    ensures failed <= reviewed.Keys
    ensures forall id :: id in failed ==> exists f :: f in fields && f.id == id && !CrossHolds(ctx, f, reviewed)
    ensures forall f :: f in fields && f.id in reviewed && !CrossHolds(ctx, f, reviewed) ==> f.id in failed
  {
    failed := {};
    for i := 0 to |fields|
      invariant failed <= reviewed.Keys
      invariant forall id :: id in failed ==> exists f :: f in fields && f.id == id && !CrossHolds(ctx, f, reviewed)
      invariant forall f :: f in fields[..i] && f.id in reviewed && !CrossHolds(ctx, f, reviewed) ==> f.id in failed
    {
      var field := fields[i];
      assert fields[..i + 1] == fields[..i] + [field];
      var found := ctx.Found(field.id);
      if field.id in reviewed && found.Some? {
        var cross := ValidationWarnings(ctx.fmt, ctx.rules, field, found.value.value, reviewed, CROSS);
        if cross != [] {
          failed := failed + {field.id};
        }
      }
    }
    assert fields[..|fields|] == fields;
  }

  /** Members of a self-supporting set survive every round. */
  lemma SupportedNeverFail(ctx: Context, fields: seq<Field>, ids: set<string>, reviewed: map<string, string>,
      failed: set<string>)
    requires SelfSupporting(ctx, fields, ids) && ids <= reviewed.Keys
    requires reviewed == ValuesOf(ctx, reviewed.Keys)
    requires forall id :: id in failed ==> exists f :: f in fields && f.id == id && !CrossHolds(ctx, f, reviewed)
    ensures ids !! failed
  {
    forall id | id in ids && id in failed
      ensures false
    {
      var f :| f in fields && f.id == id && !CrossHolds(ctx, f, reviewed);
      CrossIsMonotone(ctx.fmt, ctx.rules, f, ctx.Found(id).value.value, ValuesOf(ctx, ids), reviewed);
    }
  }

  /** There is only one greatest set, and it does not depend on the order of the fields. */
  lemma ReviewOrderIrrelevant(ctx: Context, fields: seq<Field>, others: seq<Field>, a: map<string, string>,
      b: map<string, string>)
    requires multiset(fields) == multiset(others)
    requires IsGreatestReviewed(ctx, fields, a) && IsGreatestReviewed(ctx, others, b)
    ensures a == b
  {
    assert forall f :: f in fields <==> f in multiset(fields);
    assert forall f :: f in others <==> f in multiset(others);
    assert BaseReviewed(ctx, fields) == BaseReviewed(ctx, others);
    assert SelfSupporting(ctx, others, a.Keys);
    assert SelfSupporting(ctx, fields, b.Keys);
    assert a.Keys == b.Keys;
  }
}
