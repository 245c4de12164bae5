/** Validation of extracted field values by the template's rules
    (core/ir/template_fingerprint.py). Number and date formats, stripping and case folding
    are arbitrary functions. */
module TemplateRules {
  import opened Prelude

  datatype Operator =
    | Before | BeforeOrEqual | After | AfterOrEqual
    | LessThan | LessThanOrEqual | GreaterThan | GreaterThanOrEqual
    | Equals | NotEquals | OtherOperator

  datatype ValueType = Unspecified | StringLike | Number | Date | Boolean | Unsupported

  datatype RuleKind =
    | Required
    | TypeIs(expected: ValueType)
    | Range(minimum: Option<real>, maximum: Option<real>)
    | AllowedValues(allowed: seq<string>)
    | CrossField(relatedTarget: string, operator: Operator)
    | UnknownKind

  datatype Rule = Rule(id: string, kind: RuleKind)

  /** The field's `risk_level`: absent, not a string, or a string in its normalised form. */
  datatype RiskLevel = NoRiskLevel | NotAString | Level(name: string)

  datatype Field = Field(
    id: string,
    valueType: ValueType,
    ruleIds: seq<string>,
    risk: RiskLevel,
    required: bool,
    outputKey: string,
    sourceAnchor: Option<string>)

  datatype Formats = Formats(
    number: string -> Option<real>,
    date: string -> Option<int>,
    strip: string -> string,
    fold: string -> string)

  datatype Warning =
    | TypeMismatch(field: string, value: string)
    | MissingRule(field: string, rule: string)
    | FailedRule(field: string, rule: string)

  datatype Typed = NumberValue(number: real) | DateValue(date: int) | BooleanValue(truth: bool)

  ghost function MatchesType(fmt: Formats, value: string, t: ValueType): bool {
    match t
    case Unspecified => true
    case StringLike => true
    case Number => fmt.number(value).Some?
    case Date => fmt.date(value).Some?
    case Boolean => fmt.fold(fmt.strip(value)) in ["true", "false", "yes", "no", "1", "0"]
    case Unsupported => false
  }

  ghost function Coerced(fmt: Formats, value: string, t: ValueType): Option<Typed> {
    match t
    case Number => (match fmt.number(value) case Some(n) => Some(NumberValue(n)) case None => None)
    case Date => (match fmt.date(value) case Some(d) => Some(DateValue(d)) case None => None)
    case Boolean =>
      var word := fmt.fold(fmt.strip(value));
      if word in ["true", "yes", "1"] then Some(BooleanValue(true))
      else if word in ["false", "no", "0"] then Some(BooleanValue(false))
      else None
    case _ => None
  }

  ghost predicate InOrder(left: real, right: real, op: Operator) {
    match op
    case Before | LessThan => left < right
    case BeforeOrEqual | LessThanOrEqual => left <= right
    case After | GreaterThan => left > right
    case AfterOrEqual | GreaterThanOrEqual => left >= right
    case _ => false
  }

  ghost predicate TypedEquality(fmt: Formats, value: string, related: string, t: ValueType, expectEqual: bool) {
    var left, right := Coerced(fmt, value, t), Coerced(fmt, related, t);
    if left.Some? || right.Some? then left.Some? && right.Some? && ((left == right) == expectEqual)
    else (fmt.strip(value) == fmt.strip(related)) == expectEqual
  }

  /** `_value_satisfies_cross_field_rule`: without a value for the related field it fails. */
  ghost predicate SatisfiesCrossField(fmt: Formats, value: string, target: string, op: Operator, values: map<string,
      string>, t: ValueType) {
    && target in values
    && var related := values[target];
       match op
       case Before | BeforeOrEqual | After | AfterOrEqual =>
         var left, right := fmt.date(value), fmt.date(related);
         left.Some? && right.Some? && InOrder(left.value as real, right.value as real, op)
       case LessThan | LessThanOrEqual | GreaterThan | GreaterThanOrEqual =>
         var left, right := fmt.number(value), fmt.number(related);
         left.Some? && right.Some? && InOrder(left.value, right.value, op)
       case Equals => TypedEquality(fmt, value, related, t, true)
       case NotEquals => TypedEquality(fmt, value, related, t, false)
       case OtherOperator => false
  }

  ghost predicate SatisfiesRule(fmt: Formats, value: string, kind: RuleKind, t: ValueType,
      values: map<string, string>) {
    match kind
    case Required => fmt.strip(value) != ""
    case TypeIs(expected) => MatchesType(fmt, value, expected)
    case Range(minimum, maximum) =>
      var number := fmt.number(value);
      && number.Some?
      && (minimum.Some? ==> minimum.value <= number.value)
      && (maximum.Some? ==> number.value <= maximum.value)
      && (minimum.Some? || maximum.Some?)
    case AllowedValues(allowed) =>
      var typed := Coerced(fmt, value, t);
      if typed.Some? then exists a :: a in allowed && Coerced(fmt, a, t) == typed
      else exists a :: a in allowed && fmt.fold(fmt.strip(a)) == fmt.fold(fmt.strip(value))
    case CrossField(target, op) => SatisfiesCrossField(fmt, value, target, op, values, t)
    case UnknownKind => false
  }

  /** `rules_by_id`: of rules with the same id the last one counts. */
  ghost function RuleById(rules: seq<Rule>, id: string): Option<Rule> {
    if rules == [] then None
    else if rules[|rules| - 1].id == id then Some(rules[|rules| - 1])
    else RuleById(rules[..|rules| - 1], id)
  }

  /** Which rules one call of the validation looks at. */
  datatype Scope = Scope(nonCross: bool, cross: bool)
  const FULL := Scope(true, true)
  const BASE := Scope(true, false)
  const CROSS := Scope(false, true)

  /** The warning that one entry of `validation_rule_ids` gives rise to, if any. */
  ghost function RuleWarning(fmt: Formats, rules: seq<Rule>, field: Field, value: string, values: map<string, string>,
      scope: Scope, ruleId: string): Option<Warning> {
    if ruleId == "" then None
    else
      match RuleById(rules, ruleId)
      case None => Some(MissingRule(DisplayId(field.id), ruleId))
      case Some(rule) =>
        if rule.kind.CrossField? && !scope.cross then None
        else if !rule.kind.CrossField? && !scope.nonCross then None
        else if SatisfiesRule(fmt, value, rule.kind, field.valueType, values) then None
        else Some(FailedRule(DisplayId(field.id), ruleId))
  }

  ghost predicate TypeAccepted(fmt: Formats, field: Field, value: string) {
    field.valueType.Unspecified? || MatchesType(fmt, value, field.valueType)
  }

  /** No warning: the value has the declared type, if types are looked at, and every rule
      looked at exists and is satisfied. */
  ghost predicate Passes(fmt: Formats, rules: seq<Rule>, field: Field, value: string, values: map<string, string>,
      scope: Scope) {
    && (scope.nonCross ==> TypeAccepted(fmt, field, value))
    && forall id :: id in field.ruleIds ==> RuleWarning(fmt, rules, field, value, values, scope, id) == None
  }

  /** The value draws the warning: the mismatch of its type alone, or else those of the rules. */
  ghost predicate IsWarned(fmt: Formats, rules: seq<Rule>, field: Field, value: string, values: map<string, string>,
      scope: Scope, w: Warning) {
    if scope.nonCross && !TypeAccepted(fmt, field, value) then w == TypeMismatch(DisplayId(field.id), value)
    else exists id :: id in field.ruleIds && RuleWarning(fmt, rules, field, value, values, scope, id) == Some(w)
  }

  // ---- What rules mean for the values that are read

  /** A range accepts exactly the numbers in a closed interval that is bounded on one side at least. */
  lemma RangeIsInterval(fmt: Formats, value: string, minimum: Option<real>, maximum: Option<real>, t: ValueType,
      values: map<string, string>)
    ensures SatisfiesRule(fmt, value, Range(minimum, maximum), t, values) <==>
      (minimum != None || maximum != None)
      && exists x :: fmt.number(value) == Some(x) && !(minimum.Some? && x < minimum.value)
                     && !(maximum.Some? && maximum.value < x)
  {
  }

  /** A rule on two dates or numbers holds exactly when both can be read and the first stands to the
      second as the operator says. */
  lemma CrossFieldMeans(fmt: Formats, value: string, target: string, related: string, op: Operator, t: ValueType)
    ensures
      var holds := SatisfiesCrossField(fmt, value, target, op, map[target := related], t);
      match (op, fmt.date(value), fmt.date(related), fmt.number(value), fmt.number(related))
      case (Before, Some(d), Some(e), _, _) => holds <==> d < e
      case (BeforeOrEqual, Some(d), Some(e), _, _) => holds <==> !(e < d)
      case (After, Some(d), Some(e), _, _) => holds <==> e < d
      case (AfterOrEqual, Some(d), Some(e), _, _) => holds <==> !(d < e)
      case (LessThan, _, _, Some(x), Some(y)) => holds <==> x < y
      case (LessThanOrEqual, _, _, Some(x), Some(y)) => holds <==> !(y < x)
      case (GreaterThan, _, _, Some(x), Some(y)) => holds <==> y < x
      case (GreaterThanOrEqual, _, _, Some(x), Some(y)) => holds <==> !(x < y)
      case (Equals, _, _, _, _) => true
      case (NotEquals, _, _, _, _) => true
      case _ => !holds
  {
  }

  // ---- The checks as they run

  /** `_value_matches_template_type` */
  method ValueMatchesType(fmt: Formats, value: string, t: ValueType) returns (matches: bool)
    ensures matches == MatchesType(fmt, value, t)
  {
    if t == Unspecified || t == StringLike {
      return true;
    }
    if t == Number {
      return fmt.number(value) != None;
    }
    if t == Date {
      return fmt.date(value) != None;
    }
    if t == Boolean {
      return fmt.fold(fmt.strip(value)) in {"true", "false", "yes", "no", "1", "0"};
    }
    matches := false;
  }

  /** `_coerced_template_validation_value` */
  method CoerceValue(fmt: Formats, value: string, t: ValueType) returns (typed: Option<Typed>)
    ensures typed == Coerced(fmt, value, t)
  {
    typed := None;
    if t == Number {
      var number := fmt.number(value);
      if number.Some? {
        typed := Some(NumberValue(number.value));
      }
    } else if t == Date {
      var date := fmt.date(value);
      if date.Some? {
        typed := Some(DateValue(date.value));
      }
    } else if t == Boolean {
      var word := fmt.fold(fmt.strip(value));
      if word in {"true", "yes", "1"} {
        typed := Some(BooleanValue(true));
      } else if word in {"false", "no", "0"} {
        typed := Some(BooleanValue(false));
      }
    }
  }

  /** `_compare_template_values` */
  method CompareValues(left: real, right: real, op: Operator) returns (holds: bool)
    ensures holds == InOrder(left, right, op)
  {
    if op == Before || op == LessThan {
      return right > left;
    }
    if op == BeforeOrEqual || op == LessThanOrEqual {
      return !(left > right);
    }
    if op == After || op == GreaterThan {
      return right < left;
    }
    if op == AfterOrEqual || op == GreaterThanOrEqual {
      return !(left < right);
    }
    holds := false;
  }

  /** `_template_values_satisfy_typed_equality` */
  method SatisfyTypedEquality(fmt: Formats, value: string, related: string, t: ValueType, expectEqual: bool)
    returns (holds: bool)
    ensures holds == TypedEquality(fmt, value, related, t, expectEqual)
  {
    var left := CoerceValue(fmt, value, t);
    var right := CoerceValue(fmt, related, t);
    if left != None || right != None {
      if left == None || right == None {
        return false;
      }
      return if expectEqual then left == right else left != right;
    }
    holds := if expectEqual then fmt.strip(value) == fmt.strip(related) else fmt.strip(value) != fmt.strip(related);
  }

  /** `_value_satisfies_cross_field_rule` */
  method SatisfiesCrossFieldRule(fmt: Formats, value: string, target: string, op: Operator,
      values: map<string, string>, t: ValueType) returns (holds: bool)
    ensures holds == SatisfiesCrossField(fmt, value, target, op, values, t)
  {
    if target !in values {
      return false;
    }
    var related := values[target];
    if op in {Before, BeforeOrEqual, After, AfterOrEqual} {
      var left, right := fmt.date(value), fmt.date(related);
      if left == None || right == None {
        return false;
      }
      holds := CompareValues(left.value as real, right.value as real, op);
    } else if op in {LessThan, LessThanOrEqual, GreaterThan, GreaterThanOrEqual} {
      var left, right := fmt.number(value), fmt.number(related);
      if left == None || right == None {
        return false;
      }
      holds := CompareValues(left.value, right.value, op);
    } else if op == Equals {
      holds := SatisfyTypedEquality(fmt, value, related, t, true);
    } else if op == NotEquals {
      holds := SatisfyTypedEquality(fmt, value, related, t, false);
    } else {
      holds := false;
    }
  }

  /** `_value_matches_allowed_template_values` */
  method MatchesAllowedValues(fmt: Formats, value: string, allowed: seq<string>, t: ValueType) returns (holds: bool)
    ensures holds == SatisfiesRule(fmt, value, AllowedValues(allowed), t, map[])
  {
    var typed := CoerceValue(fmt, value, t);
    for i := 0 to |allowed|
      invariant forall k :: 0 <= k < i ==>
        if typed.Some? then Coerced(fmt, allowed[k], t) != typed
        else fmt.fold(fmt.strip(allowed[k])) != fmt.fold(fmt.strip(value))
    {
      assert allowed[i] in allowed;
      if typed != None {
        var other := CoerceValue(fmt, allowed[i], t);
        if typed == other {
          return true;
        }
      } else if fmt.fold(fmt.strip(allowed[i])) == fmt.fold(fmt.strip(value)) {
        return true;
      }
    }
    holds := false;
  }

  /** `_value_satisfies_template_validation_rule` */
  method ValueSatisfiesRule(fmt: Formats, value: string, kind: RuleKind, t: ValueType, values: map<string, string>)
    returns (holds: bool)
    ensures holds == SatisfiesRule(fmt, value, kind, t, values)
  {
    match kind {
      case Required => holds := |fmt.strip(value)| > 0;
      case TypeIs(expected) => holds := ValueMatchesType(fmt, value, expected);
      case Range(minimum, maximum) =>
        var number := fmt.number(value);
        if number == None || (minimum.Some? && number.value < minimum.value)
          || (maximum.Some? && number.value > maximum.value)
        {
          return false;
        }
        holds := minimum != None || maximum != None;
      case AllowedValues(allowed) => holds := MatchesAllowedValues(fmt, value, allowed, t);
      case CrossField(target, op) => holds := SatisfiesCrossFieldRule(fmt, value, target, op, values, t);
      case UnknownKind => holds := false;
    }
  }

  /** The dict comprehension of the rules by their id. */
  method RulesById(rules: seq<Rule>) returns (byId: map<string, Rule>)
    ensures forall id :: RuleById(rules, id) == if id in byId then Some(byId[id]) else None
  {
    byId := map[];
    for i := 0 to |rules|
      invariant forall id :: RuleById(rules[..i], id) == if id in byId then Some(byId[id]) else None
    {
      assert rules[..i + 1][..i] == rules[..i];
      byId := byId[rules[i].id := rules[i]];
    }
    assert rules[..|rules|] == rules;
  }

  /** The warning for one rule id of a field. */
  method WarnOfRule(fmt: Formats, rules: seq<Rule>, byId: map<string, Rule>, field: Field, value: string,
      values: map<string, string>, scope: Scope, ruleId: string) returns (warning: Option<Warning>)
    requires forall id :: RuleById(rules, id) == if id in byId then Some(byId[id]) else None
    ensures warning == RuleWarning(fmt, rules, field, value, values, scope, ruleId)
  {
    hide SatisfiesRule, RuleById;
    warning := None;
    if ruleId == "" {
      return;
    }
    if ruleId !in byId {
      return Some(MissingRule(DisplayId(field.id), ruleId));
    }
    var kind := byId[ruleId].kind;
    if (kind.CrossField? && !scope.cross) || (!kind.CrossField? && !scope.nonCross) {
      return;
    }
    var satisfied := ValueSatisfiesRule(fmt, value, kind, field.valueType, values);
    if !satisfied {
      warning := Some(FailedRule(DisplayId(field.id), ruleId));
    }
  }

  /** `_template_field_value_validation_warnings` */
  method ValidationWarnings(fmt: Formats, rules: seq<Rule>, field: Field, value: string, values: map<string, string>,
      scope: Scope)
    returns (warnings: seq<Warning>)
    ensures Distinct(warnings)
    ensures forall w :: w in warnings <==> IsWarned(fmt, rules, field, value, values, scope, w)
    ensures warnings == [] <==> Passes(fmt, rules, field, value, values, scope)
  {
    hide MatchesType, RuleWarning, RuleById;
    var typed := ValueMatchesType(fmt, value, field.valueType);
    if scope.nonCross && field.valueType != Unspecified && !typed {
      return [TypeMismatch(DisplayId(field.id), value)];
    }
    var byId := RulesById(rules);
    warnings := [];
    for i := 0 to |field.ruleIds|
      invariant forall w :: w in warnings ==>
        exists id :: id in field.ruleIds && RuleWarning(fmt, rules, field, value, values, scope, id) == Some(w)
      invariant forall k :: 0 <= k < i ==>
        var w := RuleWarning(fmt, rules, field, value, values, scope, field.ruleIds[k]);
        w.Some? ==> w.value in warnings
    {
      var w := WarnOfRule(fmt, rules, byId, field, value, values, scope, field.ruleIds[i]);
      if w.Some? {
        warnings := warnings + [w.value];
      }
    }
    warnings := Dedupe(warnings);
    assert forall id :: id in field.ruleIds ==> exists k :: 0 <= k < |field.ruleIds| && field.ruleIds[k] == id;
    if warnings != [] {
      assert warnings[0] in warnings;
    }
  }

  /** The full check is the conjunction of its two halves, and the base half looks at no
      other field. */
  lemma FullIsBaseAndCross(fmt: Formats, rules: seq<Rule>, field: Field, value: string, values: map<string, string>,
      others: map<string, string>)
    ensures Passes(fmt, rules, field, value, values, FULL) <==>
      (Passes(fmt, rules, field, value, others, BASE) && Passes(fmt, rules, field, value, values, CROSS))
  {
    forall id
      ensures RuleWarning(fmt, rules, field, value, values, FULL, id) == None <==>
        (RuleWarning(fmt, rules, field, value, others, BASE, id) == None
         && RuleWarning(fmt, rules, field, value, values, CROSS, id) == None)
    {
    }
  }

  /** More reviewed values never make a cross-field check fail. */
  lemma CrossIsMonotone(fmt: Formats, rules: seq<Rule>, field: Field, value: string, fewer: map<string, string>,
      more: map<string, string>)
    requires forall id :: id in fewer ==> id in more && more[id] == fewer[id]
    requires Passes(fmt, rules, field, value, fewer, CROSS)
    ensures Passes(fmt, rules, field, value, more, CROSS)
  {
    forall id | id in field.ruleIds
      ensures RuleWarning(fmt, rules, field, value, more, CROSS, id) == None
    {
      assert RuleWarning(fmt, rules, field, value, fewer, CROSS, id) == None;
    }
  }
}
