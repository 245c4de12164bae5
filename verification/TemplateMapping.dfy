/** Mapping the fields of a matched template into the output: what is confirmed, and where it
    is written (core/ir/template_fingerprint.py, `apply_template_field_mapping`). */
module TemplateMapping {
  import opened Prelude
  import opened OutputPaths
  import opened OutputTree
  import opened TemplateRules
  import opened TemplateReview
  import opened DocumentIR
  import TemplateMatch

  datatype Template = Template(
    fingerprint: TemplateMatch.Fingerprint,
    rules: seq<Rule>,
    riskRankDeclared: bool,
    definedLevels: set<string>,
    reviewLevels: set<string>,
    fieldMap: seq<KeyEntry>,
    tableMap: seq<KeyEntry>) {

    function Fields(): seq<Field> { fingerprint.fields }
  }

  /** How values are found in a document; `None` when a field is not found. */
  datatype Extractor = Extractor(
    reader: TemplateMatch.Reader, formats: Formats, extract: (Document, Field) -> Option<Extracted>)

  datatype FieldWarning =
    | MissingField(id: string)
    | MatchNeedsReview
    | BlockWarning(text: string)
    | Risk(risk: RiskWarning)
    | Validation(validation: TemplateRules.Warning)
    | Conflict(conflict: ConflictWarning)
    | KnownTemplateRequired
    | FromMatch(warning: TemplateMatch.Warning)

  datatype MappedField = MappedField(
    id: string, outputKey: string, value: Option<string>, confidence: real,
    requiresReview: bool, warnings: seq<FieldWarning>)

  /** A value the mapping lets through without review. */
  predicate IsConfirmed(m: MappedField) {
    m.value.Some? && !m.requiresReview
  }

  /** Field ids are non-empty and distinct, and none is the key of an output table. */
  ghost predicate IdsAreKeys(tpl: Template) {
    && (forall f :: f in tpl.Fields() ==> f.id != "")
    && (forall i, j :: 0 <= i < j < |tpl.Fields()| ==> tpl.Fields()[i].id != tpl.Fields()[j].id)
    && (forall f, t :: f in tpl.Fields() && t in tpl.tableMap ==> f.id != "table:" + t.fieldId)
  }

  // ---- Output keys

  /** `output_keys_by_field_id`: the last entry for an id counts. */
  function OutputKeys(fieldMap: seq<KeyEntry>): map<string, string> {
    if fieldMap == [] then map[]
    else OutputKeys(fieldMap[..|fieldMap| - 1])[fieldMap[|fieldMap| - 1].fieldId := fieldMap[|fieldMap| - 1].key]
  }

  /** Entry `i` is the last one for the id. */
  ghost predicate IsLastEntry(fieldMap: seq<KeyEntry>, i: int, id: string) {
    0 <= i < |fieldMap| && fieldMap[i].fieldId == id && forall j :: i < j < |fieldMap| ==> fieldMap[j].fieldId != id
  }

  lemma {:induction false} LastEntryCounts(fieldMap: seq<KeyEntry>, id: string)
    ensures id !in OutputKeys(fieldMap) ==> forall i :: 0 <= i < |fieldMap| ==> fieldMap[i].fieldId != id
    ensures id in OutputKeys(fieldMap) ==>
      exists i :: IsLastEntry(fieldMap, i, id) && OutputKeys(fieldMap)[id] == fieldMap[i].key
  {
    if fieldMap != [] {
      var n := |fieldMap| - 1;
      LastEntryCounts(fieldMap[..n], id);
      if fieldMap[n].fieldId == id {
        assert IsLastEntry(fieldMap, n, id);
      } else if id in OutputKeys(fieldMap[..n]) {
        var i :| IsLastEntry(fieldMap[..n], i, id) && OutputKeys(fieldMap[..n])[id] == fieldMap[..n][i].key;
        assert IsLastEntry(fieldMap, i, id);
      }
    }
  }

  /** The last output key that the template maps the field to, if it is not empty; else the field's
      own, if that is not empty; else the field's id. */
  ghost predicate IsOutputKey(tpl: Template, field: Field, key: string) {
    || (key != "" && exists i :: IsLastEntry(tpl.fieldMap, i, field.id) && key == tpl.fieldMap[i].key)
    || (&& (forall i :: IsLastEntry(tpl.fieldMap, i, field.id) ==> tpl.fieldMap[i].key == "")
        && key == if field.outputKey != "" then field.outputKey else field.id)
  }

  lemma OutputKeyMeans(tpl: Template, field: Field)
    ensures IsOutputKey(tpl, field, FieldOutputKey(OutputKeys(tpl.fieldMap), field))
  {
    LastEntryCounts(tpl.fieldMap, field.id);
    forall i, j | IsLastEntry(tpl.fieldMap, i, field.id) && IsLastEntry(tpl.fieldMap, j, field.id) ensures i == j {
    }
  }

  /** Enters the key of a field in an insertion-ordered dict. */
  function PutEntry(entries: seq<KeyEntry>, e: KeyEntry): (r: seq<KeyEntry>)
    ensures e in r
    ensures forall x :: x in entries && x.fieldId != e.fieldId ==> x in r
  {
    if entries == [] then [e]
    else if entries[0].fieldId == e.fieldId then [e] + entries[1..]
    else [entries[0]] + PutEntry(entries[1..], e)
  }

  function PutEntries(entries: seq<KeyEntry>, more: seq<KeyEntry>): seq<KeyEntry> {
    if more == [] then entries
    else PutEntry(PutEntries(entries, more[..|more| - 1]), more[|more| - 1])
  }

  function FieldEntries(tpl: Template): seq<KeyEntry> {
    seq(|tpl.Fields()|, i requires 0 <= i < |tpl.Fields()| =>
      KeyEntry(tpl.Fields()[i].id, FieldOutputKey(OutputKeys(tpl.fieldMap), tpl.Fields()[i])))
  }

  function TableEntries(tpl: Template): seq<KeyEntry> {
    seq(|tpl.tableMap|, i requires 0 <= i < |tpl.tableMap| => KeyEntry("table:" + tpl.tableMap[i].fieldId, tpl.tableMap[i].key))
  }

  /** `_field_and_table_output_keys_for_conflicts` */
  function ConflictEntries(tpl: Template): seq<KeyEntry> {
    PutEntries(PutEntries([], FieldEntries(tpl)), TableEntries(tpl))
  }

  lemma {:induction false} PutEntriesKeeps(entries: seq<KeyEntry>, more: seq<KeyEntry>, e: KeyEntry)
    requires e in entries || e in more
    requires forall x :: x in more && x.fieldId == e.fieldId ==> x == e
    ensures e in PutEntries(entries, more)
  {
    if more != [] {
      var init, last := more[..|more| - 1], more[|more| - 1];
      assert more == init + [last];
      if e != last {
        PutEntriesKeeps(entries, init, e);
      }
    }
  }

  /** No two entries have the same id. */
  ghost predicate IdsDiffer(entries: seq<KeyEntry>) {
    forall i, j :: 0 <= i < j < |entries| ==> entries[i].fieldId != entries[j].fieldId
  }

  lemma {:induction false} PutMeans(entries: seq<KeyEntry>, e: KeyEntry)
    requires IdsDiffer(entries)
    ensures IdsDiffer(PutEntry(entries, e))
    ensures forall x :: x in PutEntry(entries, e) <==> x == e || (x in entries && x.fieldId != e.fieldId)
  {
    if entries != [] {
      var first, rest := entries[0], entries[1..];
      assert entries == [first] + rest;
      assert forall x :: x in rest ==> x.fieldId != first.fieldId;
      if first.fieldId != e.fieldId {
        PutMeans(rest, e);
        assert forall x :: x in PutEntry(rest, e) ==> x.fieldId != first.fieldId;
      }
    }
  }

  /** An insertion-ordered dict holds the last entry of every id. */
  lemma {:induction false} PutAllMeans(entries: seq<KeyEntry>, more: seq<KeyEntry>)
    requires IdsDiffer(entries)
    ensures IdsDiffer(PutEntries(entries, more))
    ensures forall x :: x in PutEntries(entries, more) <==>
      IsLastOf(more, x) || (x in entries && !HasId(more, x.fieldId))
  {
    hide IdsDiffer;
    if more != [] {
      var init, last := more[..|more| - 1], more[|more| - 1];
      PutAllMeans(entries, init);
      PutMeans(PutEntries(entries, init), last);
      forall x ensures IsLastOf(more, x) <==> x == last || (IsLastOf(init, x) && x.fieldId != last.fieldId)
        ensures HasId(more, x.fieldId) <==> HasId(init, x.fieldId) || x.fieldId == last.fieldId
      {
        LastOfMore(init, last, x);
        assert more == init + [last];
      }
    } else {
      assert forall x :: !IsLastOf(more, x) && !HasId(more, x.fieldId);
    }
  }

  ghost predicate IsLastOf(entries: seq<KeyEntry>, x: KeyEntry) {
    exists i :: IsLastEntry(entries, i, x.fieldId) && entries[i] == x
  }

  ghost predicate HasId(entries: seq<KeyEntry>, id: string) {
    exists i :: 0 <= i < |entries| && entries[i].fieldId == id
  }

  lemma LastOfMore(init: seq<KeyEntry>, last: KeyEntry, x: KeyEntry)
    ensures IsLastOf(init + [last], x) <==> x == last || (IsLastOf(init, x) && x.fieldId != last.fieldId)
    ensures HasId(init + [last], x.fieldId) <==> HasId(init, x.fieldId) || x.fieldId == last.fieldId
  {
    var more := init + [last];
    if x == last { assert IsLastEntry(more, |init|, x.fieldId); }
    if IsLastOf(init, x) && x.fieldId != last.fieldId {
      var i :| IsLastEntry(init, i, x.fieldId) && init[i] == x;
      assert IsLastEntry(more, i, x.fieldId);
    }
    if IsLastOf(more, x) && x != last {
      var i :| IsLastEntry(more, i, x.fieldId) && more[i] == x;
      assert i < |init| && init[i] == x;
      assert forall j :: 0 <= j < |init| ==> init[j] == more[j];
      assert IsLastEntry(init, i, x.fieldId);
    }
    if HasId(init, x.fieldId) {
      var i :| 0 <= i < |init| && init[i].fieldId == x.fieldId;
      assert more[i].fieldId == x.fieldId;
    }
    assert more[|init|] == last;
  }

  ghost predicate IsFieldEntry(tpl: Template, e: KeyEntry) {
    exists i :: 0 <= i < |tpl.Fields()| && tpl.Fields()[i].id == e.fieldId && IsOutputKey(tpl, tpl.Fields()[i], e.key)
  }

  ghost predicate IsTableEntry(tpl: Template, e: KeyEntry) {
    exists i :: 0 <= i < |tpl.tableMap| && IsLastEntry(tpl.tableMap, i, tpl.tableMap[i].fieldId)
                && e.fieldId == "table:" + tpl.tableMap[i].fieldId && e.key == tpl.tableMap[i].key
  }

  /** The entries compared for conflicts are the output keys of the fields and of the tables, the last
      one for each table. */
  lemma EntriesMean(tpl: Template, e: KeyEntry)
    requires IdsAreKeys(tpl)
    ensures e in ConflictEntries(tpl) <==> IsFieldEntry(tpl, e) || IsTableEntry(tpl, e)
  {
    hide IsOutputKey;
    PutAllMeans([], FieldEntries(tpl));
    PutAllMeans(PutEntries([], FieldEntries(tpl)), TableEntries(tpl));
    FieldEntryMeans(tpl, e);
    TableEntryMeans(tpl, e);
    assert forall i :: 0 <= i < |tpl.tableMap| ==> tpl.tableMap[i] in tpl.tableMap;
    assert forall i :: 0 <= i < |tpl.Fields()| ==> tpl.Fields()[i] in tpl.Fields();
  }

  lemma FieldEntryMeans(tpl: Template, e: KeyEntry)
    requires IdsAreKeys(tpl)
    ensures IsLastOf(FieldEntries(tpl), e) <==> IsFieldEntry(tpl, e)
  {
    hide IsOutputKey;
    var entries := FieldEntries(tpl);
    if IsLastOf(entries, e) {
      var i :| IsLastEntry(entries, i, e.fieldId) && entries[i] == e;
      OutputKeyMeans(tpl, tpl.Fields()[i]);
    }
    if IsFieldEntry(tpl, e) {
      var i :| 0 <= i < |tpl.Fields()| && tpl.Fields()[i].id == e.fieldId && IsOutputKey(tpl, tpl.Fields()[i], e.key);
      OutputKeyMeans(tpl, tpl.Fields()[i]);
      OneOutputKey(tpl, tpl.Fields()[i], e.key, entries[i].key);
      forall j | i < j < |entries| ensures entries[j].fieldId != e.fieldId {
        assert entries[j].fieldId == tpl.Fields()[j].id;
      }
      assert IsLastEntry(entries, i, e.fieldId) && entries[i] == e;
    }
  }

  lemma OneOutputKey(tpl: Template, field: Field, a: string, b: string)
    requires IsOutputKey(tpl, field, a) && IsOutputKey(tpl, field, b)
    ensures a == b
  {
    forall i, j | IsLastEntry(tpl.fieldMap, i, field.id) && IsLastEntry(tpl.fieldMap, j, field.id) ensures i == j {
    }
  }

  lemma TableEntryMeans(tpl: Template, e: KeyEntry)
    ensures IsLastOf(TableEntries(tpl), e) <==> IsTableEntry(tpl, e)
  {
    var entries := TableEntries(tpl);
    forall i, j | 0 <= i < |entries| && 0 <= j < |entries|
      ensures entries[i].fieldId == entries[j].fieldId <==> tpl.tableMap[i].fieldId == tpl.tableMap[j].fieldId
    {
      assert entries[i].fieldId[6..] == tpl.tableMap[i].fieldId && entries[j].fieldId[6..] == tpl.tableMap[j].fieldId;
    }
    if IsLastOf(entries, e) {
      var i :| IsLastEntry(entries, i, e.fieldId) && entries[i] == e;
      assert IsLastEntry(tpl.tableMap, i, tpl.tableMap[i].fieldId);
    }
    if IsTableEntry(tpl, e) {
      var i :| 0 <= i < |tpl.tableMap| && IsLastEntry(tpl.tableMap, i, tpl.tableMap[i].fieldId)
        && e.fieldId == "table:" + tpl.tableMap[i].fieldId && e.key == tpl.tableMap[i].key;
      assert IsLastEntry(entries, i, e.fieldId) && entries[i] == e;
    }
  }

  lemma FieldHasEntry(tpl: Template, i: nat)
    requires IdsAreKeys(tpl) && i < |tpl.Fields()|
    ensures FieldEntries(tpl)[i] in ConflictEntries(tpl)
  {
    var e := FieldEntries(tpl)[i];
    assert e in FieldEntries(tpl);
    forall x | x in FieldEntries(tpl) && x.fieldId == e.fieldId
      ensures x == e
    {
      var k :| 0 <= k < |FieldEntries(tpl)| && FieldEntries(tpl)[k] == x;
    }
    PutEntriesKeeps([], FieldEntries(tpl), e);
    forall x | x in TableEntries(tpl)
      ensures x.fieldId != e.fieldId
    {
      var k :| 0 <= k < |TableEntries(tpl)| && TableEntries(tpl)[k] == x;
      assert tpl.tableMap[k] in tpl.tableMap;
      assert tpl.Fields()[i] in tpl.Fields();
    }
    PutEntriesKeeps(PutEntries([], FieldEntries(tpl)), TableEntries(tpl), e);
  }

  // ---- The two passes

  /** The second look at a field, which decides whether its value is confirmed. */
  ghost predicate SecondPassConfirms(ctx: Context, field: Field, reviewed: map<string, string>) {
    && ctx.Found(field.id).Some?
    && var x := ctx.Found(field.id).value;
       && !x.blockRequiresReview
       && x.blockWarnings == []
       && ctx.RiskAccepted(field)
       && ctx.ConflictWarnings(field) == []
       && Passes(ctx.fmt, ctx.rules, field, x.value, reviewed, FULL)
  }

  /** The second pass confirms exactly the fields that the first pass reviewed: no confirmed
      value was checked against an unconfirmed one. */
  lemma PassesAgree(ctx: Context, fields: seq<Field>, reviewed: map<string, string>, field: Field)
    requires field in fields && field.id != ""
    requires forall i, j :: 0 <= i < j < |fields| ==> fields[i].id != fields[j].id
    requires IsGreatestReviewed(ctx, fields, reviewed)
    ensures SecondPassConfirms(ctx, field, reviewed) <==> field.id in reviewed
  {
    if ctx.Found(field.id).Some? {
      FullIsBaseAndCross(ctx.fmt, ctx.rules, field, ctx.Found(field.id).value.value, reviewed, map[]);
    }
    if field.id in reviewed {
      var f :| f in fields && BasePasses(ctx, f) && f.id == field.id;
      SameIdSameField(fields, f, field);
    } else if SecondPassConfirms(ctx, field, reviewed) {
      EnlargedSupportsItself(ctx, fields, reviewed, field);
    }
  }

  lemma SameIdSameField(fields: seq<Field>, f: Field, g: Field)
    requires forall i, j :: 0 <= i < j < |fields| ==> fields[i].id != fields[j].id
    requires f in fields && g in fields && f.id == g.id
    ensures f == g
  {
    var i :| 0 <= i < |fields| && fields[i] == f;
    var j :| 0 <= j < |fields| && fields[j] == g;
  }

  lemma EnlargedSupportsItself(ctx: Context, fields: seq<Field>, reviewed: map<string, string>, field: Field)
    requires field in fields && BasePasses(ctx, field) && CrossHolds(ctx, field, reviewed)
    requires forall i, j :: 0 <= i < j < |fields| ==> fields[i].id != fields[j].id
    requires SelfSupporting(ctx, fields, reviewed.Keys) && reviewed == ValuesOf(ctx, reviewed.Keys)
    ensures SelfSupporting(ctx, fields, reviewed.Keys + {field.id})
  {
    var ids := reviewed.Keys + {field.id};
    forall f | f in fields && f.id in ids && ctx.Found(f.id).Some?
      ensures CrossHolds(ctx, f, ValuesOf(ctx, ids))
    {
      if f.id == field.id { SameIdSameField(fields, f, field); }
      CrossIsMonotone(ctx.fmt, ctx.rules, f, ctx.Found(f.id).value.value, reviewed, ValuesOf(ctx, ids));
    }
  }

  // ---- The mapping

  datatype MappingResult = MappingResult(fields: seq<MappedField>, requiresReview: bool, warnings: seq<FieldWarning>)

  /** `_template_absent_field_risk_warnings` */
  function AbsentRiskWarnings(ctx: Context, field: Field): seq<RiskWarning> {
    if field.required then ctx.RiskWarnings(field)
    else if !ctx.riskRankDeclared then []
    else
      var level := if field.risk.Level? then field.risk.name else "";
      if level == "" || level !in ctx.definedLevels then ctx.RiskWarnings(field) else []
  }

  /** The risk of a field without a value is in order: its level is one that the matrix defines. */
  ghost predicate AbsentRiskPasses(risk: RiskLevel, declared: bool, defined: set<string>) {
    declared ==> risk.Level? && risk.name != "" && risk.name in defined
  }

  /** A field without a value that is not required is only warned of a risk level that is missing or
      undefined. */
  lemma AbsentRiskMeans(ctx: Context, field: Field)
    ensures AbsentRiskWarnings(ctx, field) == [] <==>
      if field.required then ctx.RiskAccepted(field)
      else AbsentRiskPasses(field.risk, ctx.riskRankDeclared, ctx.definedLevels)
    ensures forall w :: w in AbsentRiskWarnings(ctx, field) <==>
      ctx.RiskIsWarned(field, w) && (field.required || !w.RiskNeedsReview?)
  {
    RiskMeans(field, ctx.riskRankDeclared, ctx.definedLevels, ctx.reviewLevels);
  }

  /** The warnings of a mapped field. */
  ghost predicate FieldWarns(ctx: Context, field: Field, matchReview: bool, reviewed: map<string, string>,
      w: FieldWarning) {
    match ctx.Found(field.id)
    case None => (
      match w
      case MissingField(id) => field.required && id == DisplayId(field.id)
      case Risk(risk) => ctx.RiskIsWarned(field, risk) && (field.required || !risk.RiskNeedsReview?)
      case Conflict(conflict) => conflict in ctx.ConflictWarnings(field)
      case _ => false)
    case Some(x) =>
      match w
      case MatchNeedsReview => matchReview
      case BlockWarning(text) => text in x.blockWarnings
      case Risk(risk) => ctx.RiskIsWarned(field, risk)
      case Validation(v) => IsWarned(ctx.fmt, ctx.rules, field, x.value, reviewed, FULL, v)
      case Conflict(conflict) => conflict in ctx.ConflictWarnings(field)
      case _ => false
  }

  /** What the mapping loop makes of one field. */
  ghost predicate MappedAs(ctx: Context, field: Field, matchReview: bool, reviewed: map<string, string>,
      m: MappedField) {
    && m.id == field.id
    && m.outputKey == ctx.OutputKey(field)
    && m.value == (match ctx.Found(field.id) case Some(x) => Some(x.value) case None => None)
    && m.confidence == (match ctx.Found(field.id) case Some(x) => x.confidence case None => 0.0)
    && (IsConfirmed(m) <==> !matchReview && SecondPassConfirms(ctx, field, reviewed))
    && (m.value.None? ==> (m.requiresReview <==>
          || field.required || ctx.ConflictWarnings(field) != []
          || !AbsentRiskPasses(field.risk, ctx.riskRankDeclared, ctx.definedLevels)))
    && (IsConfirmed(m) ==> m.warnings == [])
    && (forall w :: w in m.warnings <==> FieldWarns(ctx, field, matchReview, reviewed, w))
  }

  function Wrapped<T>(ws: seq<T>, wrap: T -> FieldWarning): (r: seq<FieldWarning>)
    ensures |r| == |ws|
    ensures forall w :: w in r <==> exists x :: x in ws && w == wrap(x)
  {
    var r := seq(|ws|, i requires 0 <= i < |ws| => wrap(ws[i]));
    assert forall i :: 0 <= i < |ws| ==> wrap(ws[i]) in r by {
      assert forall i :: 0 <= i < |ws| ==> r[i] == wrap(ws[i]);
    }
    r
  }

  function Missing(field: Field): (r: seq<FieldWarning>)
    ensures forall w :: w in r <==> w.MissingField? && field.required && w.id == DisplayId(field.id)
  {
    if field.required then [MissingField(DisplayId(field.id))] else []
  }

  function Risks(risks: seq<RiskWarning>): (r: seq<FieldWarning>)
    ensures r == [] <==> risks == []
    ensures forall w :: w in r <==> w.Risk? && w.risk in risks
  {
    Wrapped(risks, w => Risk(w))
  }

  function ConflictsOf(conflicts: seq<ConflictWarning>): (r: seq<FieldWarning>)
    ensures r == [] <==> conflicts == []
    ensures forall w :: w in r <==> w.Conflict? && w.conflict in conflicts
  {
    Wrapped(conflicts, w => Conflict(w))
  }

  function OfMatch(matchReview: bool): (r: seq<FieldWarning>)
    ensures r == [] <==> !matchReview
    ensures forall w :: w in r <==> w.MatchNeedsReview? && matchReview
  {
    if matchReview then [MatchNeedsReview] else []
  }

  function OfBlock(texts: seq<string>): (r: seq<FieldWarning>)
    ensures r == [] <==> texts == []
    ensures forall w :: w in r <==> w.BlockWarning? && w.text in texts
  {
    Wrapped(texts, w => BlockWarning(w))
  }

  function Validations(warnings: seq<TemplateRules.Warning>): (r: seq<FieldWarning>)
    ensures r == [] <==> warnings == []
    ensures forall w :: w in r <==> w.Validation? && w.validation in warnings
  {
    Wrapped(warnings, w => Validation(w))
  }

  function AbsentWarnings(ctx: Context, field: Field): seq<FieldWarning> {
    Missing(field) + Risks(AbsentRiskWarnings(ctx, field)) + ConflictsOf(ctx.ConflictWarnings(field))
  }

  function FoundWarnings(ctx: Context, field: Field, x: Extracted, matchReview: bool,
      validation: seq<TemplateRules.Warning>): (r: seq<FieldWarning>)
    ensures (!matchReview && x.blockWarnings == [] && ctx.RiskWarnings(field) == [] && validation == []
             && ctx.ConflictWarnings(field) == []) ==> r == []
  {
    OfMatch(matchReview) + OfBlock(x.blockWarnings) + Risks(ctx.RiskWarnings(field)) + Validations(validation)
    + ConflictsOf(ctx.ConflictWarnings(field))
  }

  lemma AbsentWarns(ctx: Context, field: Field, matchReview: bool, reviewed: map<string, string>)
    requires ctx.Found(field.id).None?
    ensures forall w :: w in AbsentWarnings(ctx, field) <==> FieldWarns(ctx, field, matchReview, reviewed, w)
  {
    hide Missing, Risks, ConflictsOf, AbsentRiskWarnings;
    AbsentRiskMeans(ctx, field);
  }

  lemma FoundWarns(ctx: Context, field: Field, matchReview: bool, reviewed: map<string, string>,
      validation: seq<TemplateRules.Warning>)
    requires ctx.Found(field.id).Some?
    requires forall v :: v in validation <==>
      IsWarned(ctx.fmt, ctx.rules, field, ctx.Found(field.id).value.value, reviewed, FULL, v)
    ensures forall w :: w in FoundWarnings(ctx, field, ctx.Found(field.id).value, matchReview, validation) <==>
      FieldWarns(ctx, field, matchReview, reviewed, w)
  {
    hide IsWarned, OfMatch, OfBlock, Risks, Validations, ConflictsOf;
    RiskMeans(field, ctx.riskRankDeclared, ctx.definedLevels, ctx.reviewLevels);
  }

  method MapField(ctx: Context, field: Field, matchReview: bool, reviewed: map<string, string>) returns (m: MappedField)
    ensures MappedAs(ctx, field, matchReview, reviewed, m)
  {
    hide IsWarned, Passes, FieldWarns, AbsentWarnings, FoundWarnings, AbsentRiskWarnings;
    var key := ctx.OutputKey(field);
    var conflicts := ctx.ConflictWarnings(field);
    match ctx.Found(field.id) {
      case None =>
        var absent := AbsentRiskWarnings(ctx, field);
        AbsentWarns(ctx, field, matchReview, reviewed);
        AbsentRiskMeans(ctx, field);
        m := MappedField(
          field.id, key, None, 0.0, field.required || absent != [] || conflicts != [], AbsentWarnings(ctx, field));
      case Some(x) =>
        var validation := ValidationWarnings(ctx.fmt, ctx.rules, field, x.value, reviewed, FULL);
        FoundWarns(ctx, field, matchReview, reviewed, validation);
        RiskMeans(field, ctx.riskRankDeclared, ctx.definedLevels, ctx.reviewLevels);
        var requiresReview := matchReview || x.blockRequiresReview || x.blockWarnings != []
          || ctx.RiskWarnings(field) != [] || validation != [] || conflicts != [];
        m := MappedField(field.id, key, Some(x.value), x.confidence, requiresReview,
          FoundWarnings(ctx, field, x, matchReview, validation));
    }
  }

  /** The writes that the confirmed fields make, in field order. */
  ghost function ConfirmedWrites(fields: seq<MappedField>): (writes: seq<KeyValue>)
    ensures forall w :: w in writes ==>
      exists m :: m in fields && IsConfirmed(m) && w == KeyValue(m.outputKey, m.value.value)
    ensures forall m :: m in fields && IsConfirmed(m) ==> KeyValue(m.outputKey, m.value.value) in writes
  {
    if fields == [] then []
    else
      var init, last := fields[..|fields| - 1], fields[|fields| - 1];
      assert fields == init + [last];
      ConfirmedWrites(init) + if IsConfirmed(last) then [KeyValue(last.outputKey, last.value.value)] else []
  }

  ghost function ConfirmedIds(fields: seq<MappedField>): set<string> {
    set m | m in fields && IsConfirmed(m) :: m.id
  }

  /** The context that the template and the document give the review of fields. */
  function ContextOf(ex: Extractor, doc: Document, tpl: Template, known: bool, conflicts: Conflicts): Context {
    Context(ex.formats, tpl.rules, tpl.riskRankDeclared, tpl.definedLevels, tpl.reviewLevels, conflicts,
      OutputKeys(tpl.fieldMap), if known then ExtractedById(ex, doc, tpl.Fields()) else map[])
  }

  function ExtractedById(ex: Extractor, doc: Document, fields: seq<Field>): map<string, Option<Extracted>> {
    if fields == [] then map[]
    else ExtractedById(ex, doc, fields[..|fields| - 1])[fields[|fields| - 1].id := ex.extract(doc, fields[|fields| - 1])]
  }

  /** No later field has the same id. */
  ghost predicate IsLastOfId(fields: seq<Field>, i: int) {
    0 <= i < |fields| && forall j :: i < j < |fields| ==> fields[j].id != fields[i].id
  }

  lemma {:induction false} ExtractedMeans(ex: Extractor, doc: Document, fields: seq<Field>, i: nat)
    requires IsLastOfId(fields, i)
    ensures fields[i].id in ExtractedById(ex, doc, fields)
    ensures ExtractedById(ex, doc, fields)[fields[i].id] == ex.extract(doc, fields[i])
  {
    if i < |fields| - 1 {
      ExtractedMeans(ex, doc, fields[..|fields| - 1], i);
    }
  }

  /** `_output_key_conflicts` has reported every clash of the template's keys, and no other key. */
  ghost predicate ReportsConflicts(tpl: Template, conflicts: Conflicts) {
    && (forall k, w :: k in conflicts && w in conflicts[k] ==> exists i, j :: Files(ConflictEntries(tpl), i, j, k, w))
    && (forall i, j, k, w :: Files(ConflictEntries(tpl), i, j, k, w) ==> k in conflicts && w in conflicts[k])
    && (forall k :: k in conflicts ==> conflicts[k] != [])
  }

  /** The first `|mapped|` fields have been mapped. */
  ghost predicate FieldsMapped(ctx: Context, fields: seq<Field>, matchReview: bool, reviewed: map<string, string>,
      mapped: seq<MappedField>) {
    |mapped| <= |fields| && forall i :: 0 <= i < |mapped| ==> MappedAs(ctx, fields[i], matchReview, reviewed, mapped[i])
  }

  function Summary(m: TemplateMatch.Match, mapped: seq<MappedField>,
      warnings: seq<FieldWarning>): (result: MappingResult)
    ensures result.fields == mapped
    ensures Distinct(result.warnings)
    ensures forall w :: w in result.warnings <==>
      (w.FromMatch? && w.warning in m.warnings) || (w.KnownTemplateRequired? && !m.classification.Known?)
        || w in warnings
    ensures result.requiresReview <==> result.warnings != [] || exists f :: f in result.fields && f.requiresReview
    ensures m.warnings != [] || !m.classification.Known? ==> result.requiresReview
  {
    var all := Dedupe(Wrapped(m.warnings, w => FromMatch(w))
      + (if m.classification.Known? then [] else [KnownTemplateRequired]) + warnings);
    MappingResult(mapped, all != [] || exists f :: f in mapped && f.requiresReview, all)
  }

  /** What one run of the mapping found on its way. */
  datatype Run = Run(known: bool, conflicts: Conflicts, reviewed: map<string, string>) {
    function Context(ex: Extractor, doc: Document, tpl: Template): TemplateReview.Context {
      ContextOf(ex, doc, tpl, known, conflicts)
    }
  }

  ghost predicate Passed(ex: Extractor, doc: Document, tpl: Template) {
    TemplateMatch.Gate(ex.reader, doc, tpl.fingerprint)
  }

  /** The warnings of the whole mapping. */
  ghost predicate ResultWarns(ex: Extractor, doc: Document, tpl: Template, run: Run, mapped: seq<MappedField>,
      w: FieldWarning) {
    || (w.FromMatch? && TemplateMatch.Warns(ex.reader, doc, tpl.fingerprint, w.warning))
    || (w.KnownTemplateRequired? && !run.known)
    || (w.Conflict? && exists k :: k in run.conflicts && w.conflict in run.conflicts[k])
    || (exists m :: m in mapped && !IsConfirmed(m) && w in m.warnings)
  }

  /** A mapped field has the output key of its field, and the value that is extracted for it if the
      template is known; it is not confirmed unless its risk lets it pass. */
  ghost predicate IsMappedFrom(ex: Extractor, doc: Document, tpl: Template, known: bool, field: Field, m: MappedField) {
    && IsOutputKey(tpl, field, m.outputKey)
    && m.value == (if known && ex.extract(doc, field).Some? then Some(ex.extract(doc, field).value.value) else None)
    && (IsConfirmed(m) ==> RiskPasses(field.risk, tpl.riskRankDeclared, tpl.definedLevels, tpl.reviewLevels))
  }

  ghost predicate AreMappedFrom(ex: Extractor, doc: Document, tpl: Template, known: bool, mapped: seq<MappedField>) {
    forall i :: 0 <= i < |mapped| && IsLastOfId(tpl.Fields(), i) ==>
      IsMappedFrom(ex, doc, tpl, known, tpl.Fields()[i], mapped[i])
  }

  lemma AllMappedFrom(ex: Extractor, doc: Document, tpl: Template, run: Run, matchReview: bool,
      mapped: seq<MappedField>)
    requires FieldsMapped(run.Context(ex, doc, tpl), tpl.Fields(), matchReview, run.reviewed, mapped)
    ensures AreMappedFrom(ex, doc, tpl, run.known, mapped)
  {
    hide FieldsMapped, IsMappedFrom;
    forall i | 0 <= i < |mapped| && IsLastOfId(tpl.Fields(), i)
      ensures IsMappedFrom(ex, doc, tpl, run.known, tpl.Fields()[i], mapped[i])
    {
      MappedFrom(ex, doc, tpl, run, matchReview, mapped, i);
    }
  }

  lemma MappedFrom(ex: Extractor, doc: Document, tpl: Template, run: Run, matchReview: bool, mapped: seq<MappedField>,
      i: nat)
    requires FieldsMapped(run.Context(ex, doc, tpl), tpl.Fields(), matchReview, run.reviewed, mapped)
    requires i < |mapped| && IsLastOfId(tpl.Fields(), i)
    ensures IsMappedFrom(ex, doc, tpl, run.known, tpl.Fields()[i], mapped[i])
  {
    hide FieldWarns;
    assert MappedAs(run.Context(ex, doc, tpl), tpl.Fields()[i], matchReview, run.reviewed, mapped[i]);
    OutputKeyMeans(tpl, tpl.Fields()[i]);
    ExtractedMeans(ex, doc, tpl.Fields(), i);
  }

  method ApplyTemplateFieldMapping(ex: Extractor, doc: Document, tpl: Template)
    returns (result: MappingResult, output: Output, ghost run: Run)
    ensures fresh(output.Repr) && HoldsConfirmed(output, result.fields)
    ensures ReportsConflicts(tpl, run.conflicts)
    ensures Passed(ex, doc, tpl) ==>
      run.known && IsGreatestReviewed(run.Context(ex, doc, tpl), tpl.Fields(), run.reviewed)
    ensures |result.fields| == |tpl.Fields()|
    ensures FieldsMapped(run.Context(ex, doc, tpl), tpl.Fields(), !Passed(ex, doc, tpl), run.reviewed, result.fields)
    ensures AreMappedFrom(ex, doc, tpl, run.known, result.fields)
    ensures run.known <==>
      TemplateMatch.Classify(TemplateMatch.Score(ex.reader, doc, tpl.fingerprint)).Known?
    ensures Distinct(result.warnings)
    ensures forall w :: w in result.warnings <==> ResultWarns(ex, doc, tpl, run, result.fields, w)
    ensures result.requiresReview <==> result.warnings != [] || exists m :: m in result.fields && m.requiresReview
    ensures !result.requiresReview ==> Passed(ex, doc, tpl)
  {
    hide HoldsConfirmed, FieldsMapped, TemplateMatch.Warns, TemplateMatch.Score, TemplateMatch.Gate,
      TemplateMatch.AnchorFound, TemplateMatch.AnchorLacking, TemplateMatch.FailClosed, IsGreatestReviewed,
      AreMappedFrom;
    var m := TemplateMatch.MatchTemplateFingerprint(ex.reader, doc, tpl.fingerprint);
    var known := m.classification.Known?;
    var conflicts := OutputKeyConflicts(ConflictEntries(tpl));
    var ctx := ContextOf(ex, doc, tpl, known, conflicts);
    var conflictWarnings := AllConflicts(conflicts);
    var reviewed := ReviewedFieldValues(ctx, tpl.Fields(), m.requiresReview);
    var mapped, fieldWarnings;
    mapped, fieldWarnings, output := MapToOutput(ctx, tpl.Fields(), m.requiresReview, reviewed);
    result := Summary(m, mapped, conflictWarnings + fieldWarnings);
    run := Run(known, conflicts, reviewed);
    AllMappedFrom(ex, doc, tpl, run, m.requiresReview, mapped);
  }

  /** The warnings of the fields that are not confirmed, in field order. */
  ghost function WithheldWarnings(mapped: seq<MappedField>): (r: seq<FieldWarning>)
    ensures forall w :: w in r <==> exists m :: m in mapped && !IsConfirmed(m) && w in m.warnings
  {
    if mapped == [] then []
    else
      var init, last := mapped[..|mapped| - 1], mapped[|mapped| - 1];
      assert mapped == init + [last];
      WithheldWarnings(init) + if IsConfirmed(last) then [] else last.warnings
  }

  lemma WithheldStep(mapped: seq<MappedField>, one: MappedField)
    ensures WithheldWarnings(mapped + [one]) == if IsConfirmed(one) then WithheldWarnings(mapped)
      else WithheldWarnings(mapped) + one.warnings
  {
    assert (mapped + [one])[..|mapped|] == mapped;
  }

  /** The output holds what the confirmed fields have written, and nothing else. */
  ghost predicate HoldsConfirmed(output: Output, mapped: seq<MappedField>)
    reads output, output.Repr
  {
    output.Valid() && output.Contents() == WriteAll(map[], ConfirmedWrites(mapped))
  }

  /** The loop over the template's fields. */
  method MapFields(ctx: Context, fields: seq<Field>, matchReview: bool, reviewed: map<string, string>, output: Output)
    returns (mapped: seq<MappedField>, warnings: seq<FieldWarning>)
    requires HoldsConfirmed(output, [])
    modifies output.Repr
    ensures HoldsConfirmed(output, mapped) && fresh(output.Repr - old(output.Repr))
    ensures |mapped| == |fields| && FieldsMapped(ctx, fields, matchReview, reviewed, mapped)
    ensures warnings == WithheldWarnings(mapped)
  {
    hide HoldsConfirmed, FieldsMapped;
    mapped, warnings := [], [];
    NothingMapped(ctx, fields, matchReview, reviewed);
    for i := 0 to |fields|
      invariant |mapped| == i
      invariant HoldsConfirmed(output, mapped) && fresh(output.Repr - old(output.Repr))
      invariant FieldsMapped(ctx, fields, matchReview, reviewed, mapped)
      invariant warnings == WithheldWarnings(mapped)
    {
      mapped, warnings := MapAndWrite(ctx, fields, matchReview, reviewed, mapped, warnings, output);
    }
  }

  lemma NothingMapped(ctx: Context, fields: seq<Field>, matchReview: bool, reviewed: map<string, string>)
    ensures FieldsMapped(ctx, fields, matchReview, reviewed, [])
  {
  }

  method MapToOutput(ctx: Context, fields: seq<Field>, matchReview: bool, reviewed: map<string, string>)
    returns (mapped: seq<MappedField>, warnings: seq<FieldWarning>, output: Output)
    ensures HoldsConfirmed(output, mapped) && fresh(output.Repr)
    ensures |mapped| == |fields| && FieldsMapped(ctx, fields, matchReview, reviewed, mapped)
    ensures warnings == WithheldWarnings(mapped)
  {
    output := new Output();
    assert HoldsConfirmed(output, []);
    mapped, warnings := MapFields(ctx, fields, matchReview, reviewed, output);
  }

  /** One field: mapped, and written if confirmed. */
  method MapAndWrite(ctx: Context, fields: seq<Field>, matchReview: bool, reviewed: map<string, string>,
                     mapped: seq<MappedField>, warnings: seq<FieldWarning>, output: Output)
    returns (mapped': seq<MappedField>, warnings': seq<FieldWarning>)
    requires |mapped| < |fields| && FieldsMapped(ctx, fields, matchReview, reviewed, mapped)
    requires warnings == WithheldWarnings(mapped)
    requires HoldsConfirmed(output, mapped)
    modifies output.Repr
    ensures HoldsConfirmed(output, mapped') && fresh(output.Repr - old(output.Repr))
    ensures |mapped'| == |mapped| + 1 && FieldsMapped(ctx, fields, matchReview, reviewed, mapped')
    ensures warnings' == WithheldWarnings(mapped')
  {
    hide MappedAs, FieldsMapped;
    var one := MapField(ctx, fields[|mapped|], matchReview, reviewed);
    FieldsMappedStep(ctx, fields, matchReview, reviewed, mapped, one);
    WithheldStep(mapped, one);
    WriteConfirmed(output, mapped, one);
    mapped' := mapped + [one];
    warnings' := if IsConfirmed(one) then warnings else warnings + one.warnings;
  }

  lemma FieldsMappedStep(ctx: Context, fields: seq<Field>, matchReview: bool, reviewed: map<string, string>,
      mapped: seq<MappedField>, one: MappedField)
    requires |mapped| < |fields| && FieldsMapped(ctx, fields, matchReview, reviewed, mapped)
    requires MappedAs(ctx, fields[|mapped|], matchReview, reviewed, one)
    ensures FieldsMapped(ctx, fields, matchReview, reviewed, mapped + [one])
  {
    var all := mapped + [one];
    forall i | 0 <= i < |all|
      ensures MappedAs(ctx, fields[i], matchReview, reviewed, all[i])
    {
      assert i < |mapped| ==> all[i] == mapped[i];
    }
  }

  method WriteConfirmed(output: Output, ghost mapped: seq<MappedField>, one: MappedField)
    requires HoldsConfirmed(output, mapped)
    modifies output.Repr
    ensures HoldsConfirmed(output, mapped + [one]) && fresh(output.Repr - old(output.Repr))
  {
    ConfirmedWritesStep(mapped, one);
    if IsConfirmed(one) {
      output.SetOutputValue(one.outputKey, one.value.value);
    }
  }

  lemma ConfirmedWritesStep(mapped: seq<MappedField>, one: MappedField)
    ensures ConfirmedWrites(mapped + [one])
         == ConfirmedWrites(mapped) + if IsConfirmed(one) then [KeyValue(one.outputKey, one.value.value)] else []
    ensures !IsConfirmed(one) ==> ConfirmedWrites(mapped + [one]) == ConfirmedWrites(mapped)
    ensures IsConfirmed(one) ==>
      WriteAll(map[], ConfirmedWrites(mapped + [one]))
      == PutLeaf(WriteAll(map[], ConfirmedWrites(mapped)), PlaceOf(PathOf(one.outputKey)), one.value.value)
  {
    assert (mapped + [one])[..|mapped|] == mapped;
    if IsConfirmed(one) {
      WriteOneMore(ConfirmedWrites(mapped), KeyValue(one.outputKey, one.value.value));
    }
  }

  lemma WriteOneMore(writes: seq<KeyValue>, w: KeyValue)
    ensures WriteAll(map[], writes + [w]) == PutLeaf(WriteAll(map[], writes), w.Place(), w.value)
  {
    assert (writes + [w])[..|writes|] == writes;
  }

  /** The conflict warnings of every key, in no particular order of the keys. */
  method AllConflicts(conflicts: Conflicts) returns (warnings: seq<FieldWarning>)
    ensures forall w :: w in warnings <==> w.Conflict? && exists k :: k in conflicts && w.conflict in conflicts[k]
  {
    warnings := [];
    var todo := conflicts.Keys;
    while todo != {}
      invariant todo <= conflicts.Keys
      invariant forall w :: w in warnings <==>
        w.Conflict? && exists k :: k in conflicts.Keys - todo && w.conflict in conflicts[k]
      decreases todo
    {
      var k :| k in todo;
      warnings := warnings + ConflictsOf(conflicts[k]);
      todo := todo - {k};
    }
  }

  // ---- What the mapping guarantees

  /** Confirmed fields do not overlap each other in the output. */
  lemma {:induction false} ConfirmedKeysAreApart(ex: Extractor, doc: Document, tpl: Template, run: Run,
      matchReview: bool, mapped: seq<MappedField>)
    requires IdsAreKeys(tpl) && ReportsConflicts(tpl, run.conflicts)
    requires FieldsMapped(run.Context(ex, doc, tpl), tpl.Fields(), matchReview, run.reviewed, mapped)
    ensures Apart(ConfirmedWrites(mapped))
  {
    if mapped != [] {
      var n := |mapped| - 1;
      var init, last := mapped[..n], mapped[n];
      assert mapped == init + [last];
      ConfirmedKeysAreApart(ex, doc, tpl, run, matchReview, init);
      ConfirmedWritesStep(init, last);
      if IsConfirmed(last) {
        forall w | w in ConfirmedWrites(init) && w.Path() != [] && PathOf(last.outputKey) != []
          ensures !Comparable(w.Path(), PathOf(last.outputKey))
        {
          var m :| m in init && IsConfirmed(m) && w == KeyValue(m.outputKey, m.value.value);
          EarlierConfirmedApart(ex, doc, tpl, run, matchReview, mapped, m);
        }
        ApartStep(ConfirmedWrites(init), KeyValue(last.outputKey, last.value.value));
      }
    }
  }

  lemma EarlierConfirmedApart(ex: Extractor, doc: Document, tpl: Template, run: Run, matchReview: bool,
      mapped: seq<MappedField>, m: MappedField)
    requires IdsAreKeys(tpl) && ReportsConflicts(tpl, run.conflicts)
    requires 0 < |mapped| && m in mapped[..|mapped| - 1]
    requires FieldsMapped(run.Context(ex, doc, tpl), tpl.Fields(), matchReview, run.reviewed, mapped)
    requires IsConfirmed(m) && IsConfirmed(mapped[|mapped| - 1])
    requires PathOf(m.outputKey) != [] && PathOf(mapped[|mapped| - 1].outputKey) != []
    ensures !Comparable(PathOf(m.outputKey), PathOf(mapped[|mapped| - 1].outputKey))
  {
    var i :| 0 <= i < |mapped| - 1 && mapped[..|mapped| - 1][i] == m;
    ConfirmedPairApart(ex, doc, tpl, run, matchReview, mapped, i, |mapped| - 1);
  }

  lemma ApartStep(writes: seq<KeyValue>, w: KeyValue)
    requires Apart(writes)
    requires forall x :: x in writes && x.Path() != [] && w.Path() != [] ==> !Comparable(x.Path(), w.Path())
    ensures Apart(writes + [w])
  {
    var all := writes + [w];
    forall i, j | 0 <= i < j < |all| && all[i].Path() != [] && all[j].Path() != []
      ensures !Comparable(all[i].Path(), all[j].Path())
    {
      if j == |writes| { assert all[i] in writes; }
    }
  }

  lemma ConfirmedPairApart(ex: Extractor, doc: Document, tpl: Template, run: Run, matchReview: bool,
      mapped: seq<MappedField>, i: nat, j: nat)
    requires IdsAreKeys(tpl) && ReportsConflicts(tpl, run.conflicts)
    requires i < j < |mapped|
    requires FieldsMapped(run.Context(ex, doc, tpl), tpl.Fields(), matchReview, run.reviewed, mapped)
    requires IsConfirmed(mapped[i]) && IsConfirmed(mapped[j])
    requires PathOf(mapped[i].outputKey) != [] && PathOf(mapped[j].outputKey) != []
    ensures !Comparable(PathOf(mapped[i].outputKey), PathOf(mapped[j].outputKey))
  {
    var ctx := run.Context(ex, doc, tpl);
    assert MappedAs(ctx, tpl.Fields()[i], matchReview, run.reviewed, mapped[i]);
    assert MappedAs(ctx, tpl.Fields()[j], matchReview, run.reviewed, mapped[j]);
    FieldHasEntry(tpl, i);
    FieldHasEntry(tpl, j);
    var entries := ConflictEntries(tpl);
    var a :| 0 <= a < |entries| && entries[a] == FieldEntries(tpl)[i];
    var b :| 0 <= b < |entries| && entries[b] == FieldEntries(tpl)[j];
    UnreportedKeyIsApart(entries, run.conflicts, a, b);
  }

  lemma MappedIsReviewed(ctx: Context, fields: seq<Field>, reviewed: map<string, string>, field: Field, m: MappedField)
    requires field in fields && field.id != ""
    requires forall i, j :: 0 <= i < j < |fields| ==> fields[i].id != fields[j].id
    requires IsGreatestReviewed(ctx, fields, reviewed) && MappedAs(ctx, field, false, reviewed, m)
    ensures m.id == field.id && (IsConfirmed(m) <==> m.id in reviewed)
    ensures IsConfirmed(m) ==> reviewed[m.id] == m.value.value
  {
    hide BasePasses, FieldWarns, SecondPassConfirms, SelfSupporting;
    PassesAgree(ctx, fields, reviewed, field);
  }

  /** The fields confirmed into the output are exactly those reviewed by the first pass. */
  lemma ConfirmedAreReviewed(ex: Extractor, doc: Document, tpl: Template, run: Run, mapped: seq<MappedField>)
    requires IdsAreKeys(tpl)
    requires IsGreatestReviewed(run.Context(ex, doc, tpl), tpl.Fields(), run.reviewed)
    requires |mapped| == |tpl.Fields()|
    requires FieldsMapped(run.Context(ex, doc, tpl), tpl.Fields(), false, run.reviewed, mapped)
    ensures ConfirmedIds(mapped) == run.reviewed.Keys
    ensures forall m :: m in mapped && IsConfirmed(m) ==> run.reviewed[m.id] == m.value.value
  {
    hide BasePasses, MappedAs, IsConfirmed;
    var ctx := run.Context(ex, doc, tpl);
    forall i | 0 <= i < |mapped|
      ensures mapped[i].id == tpl.Fields()[i].id && (IsConfirmed(mapped[i]) <==> mapped[i].id in run.reviewed)
      ensures IsConfirmed(mapped[i]) ==> mapped[i].value.Some? && run.reviewed[mapped[i].id] == mapped[i].value.value
    {
      MappedIsReviewed(ctx, tpl.Fields(), run.reviewed, tpl.Fields()[i], mapped[i]);
      ConfirmedHasValue(mapped[i]);
    }
    forall id | id in run.reviewed
      ensures id in ConfirmedIds(mapped)
    {
      var f :| f in tpl.Fields() && BasePasses(ctx, f) && f.id == id;
      var i :| 0 <= i < |mapped| && tpl.Fields()[i] == f;
      assert mapped[i] in mapped;
    }
  }

  lemma ConfirmedHasValue(m: MappedField)
    ensures IsConfirmed(m) ==> m.value.Some?
  {
  }

  /** Every confirmed value with a place stands at its place in the output, and nothing else
      is there; without the gate the output is empty. */
  lemma OutputIsTheConfirmedValues(ex: Extractor, doc: Document, tpl: Template, run: Run, mapped: seq<MappedField>)
    requires IdsAreKeys(tpl) && ReportsConflicts(tpl, run.conflicts)
    requires FieldsMapped(run.Context(ex, doc, tpl), tpl.Fields(), !Passed(ex, doc, tpl), run.reviewed, mapped)
    ensures forall p, v :: Reads(WriteAll(map[], ConfirmedWrites(mapped)), p, v) <==>
      Writes(ConfirmedWrites(mapped), p, v)
    ensures |WriteAll(map[], ConfirmedWrites(mapped))| == LeafWrites(ConfirmedWrites(mapped))
    ensures !Passed(ex, doc, tpl) ==> ConfirmedWrites(mapped) == []
  {
    hide FieldWarns, SecondPassConfirms, Passed, ReportsConflicts;
    ConfirmedKeysAreApart(ex, doc, tpl, run, !Passed(ex, doc, tpl), mapped);
    WrittenValuesStand(ConfirmedWrites(mapped));
    if !Passed(ex, doc, tpl) {
      FirstIsMember(ConfirmedWrites(mapped));
      forall m | m in mapped ensures !IsConfirmed(m) {
        var i :| 0 <= i < |mapped| && mapped[i] == m;
        assert MappedAs(run.Context(ex, doc, tpl), tpl.Fields()[i], true, run.reviewed, mapped[i]);
      }
    }
  }
}
