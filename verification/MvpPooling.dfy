/** Ratio metrics of single cases and their pooled rollup (scripts/evaluate_dataset.py,
    `_mvp_ratio_metric` and `aggregate_ratio` in `mvp_metrics_rollup`). A rate is an exact
    quotient. */
module MvpPooling {
  import opened Prelude

  /** Any status that is neither "pass" nor "fail" counts as unknown. */
  datatype Status = Pass | Fail | Unknown

  /** `NotInt` is any value that is not an integer, booleans among them. */
  datatype Count = Int(value: int) | NotInt

  datatype Metric = Metric(status: Status, numerator: Count, denominator: Count, rate: Option<real>)

  predicate ValidCounts(numerator: Count, denominator: Count) {
    numerator.Int? && denominator.Int? && denominator.value > 0 && 0 <= numerator.value <= denominator.value
  }

  function Rate(numerator: int, denominator: int): real
    requires denominator > 0
  {
    numerator as real / denominator as real
  }

  /** `_mvp_ratio_metric` */
  function RatioMetric(numerator: Count, denominator: Count, threshold: real): Metric {
    if !ValidCounts(numerator, denominator) then Metric(Unknown, numerator, denominator, None)
    else
      var rate := Rate(numerator.value, denominator.value);
      Metric(if rate >= threshold then Pass else Fail, numerator, denominator, Some(rate))
  }

  /** `metric` is None when the case has no such dimension. */
  datatype Case = Case(id: string, metric: Option<Metric>)

  /** What the rollup accepts: valid counts, and the status that they give. */
  ghost predicate IsSound(c: Case, threshold: real) {
    && c.metric.Some? && c.metric.value.status != Unknown
    && ValidCounts(c.metric.value.numerator, c.metric.value.denominator)
    && (c.metric.value.status == Pass <==> Rate(c.metric.value.numerator.value, c.metric.value.denominator.value) >= threshold)
  }

  /** A pass or fail made by `_mvp_ratio_metric` is never taken for invalid by the rollup. */
  lemma MetricsAreSound(id: string, numerator: Count, denominator: Count, threshold: real)
    ensures var metric := RatioMetric(numerator, denominator, threshold);
      IsSound(Case(id, Some(metric)), threshold) <==> metric.status != Unknown
    ensures RatioMetric(numerator, denominator, threshold).status != Unknown <==> ValidCounts(numerator, denominator)
  {
  }

  ghost function InvalidIds(cases: seq<Case>, threshold: real): seq<string> {
    if cases == [] then []
    else
      var init, last := InvalidIds(cases[..|cases| - 1], threshold), cases[|cases| - 1];
      if IsSound(last, threshold) then init else init + [last.id]
  }

  ghost function FailedIds(cases: seq<Case>, threshold: real): seq<string> {
    if cases == [] then []
    else
      var init, last := FailedIds(cases[..|cases| - 1], threshold), cases[|cases| - 1];
      if IsSound(last, threshold) && last.metric.value.status == Fail then init + [last.id] else init
  }

  ghost function NumeratorSum(cases: seq<Case>, threshold: real): int {
    if cases == [] then 0
    else
      var init, last := NumeratorSum(cases[..|cases| - 1], threshold), cases[|cases| - 1];
      if IsSound(last, threshold) then init + last.metric.value.numerator.value else init
  }

  ghost function DenominatorSum(cases: seq<Case>, threshold: real): int {
    if cases == [] then 0
    else
      var init, last := DenominatorSum(cases[..|cases| - 1], threshold), cases[|cases| - 1];
      if IsSound(last, threshold) then init + last.metric.value.denominator.value else init
  }

  ghost predicate AllSound(cases: seq<Case>, threshold: real) {
    forall i :: 0 <= i < |cases| ==> IsSound(cases[i], threshold)
  }

  ghost predicate AllPass(cases: seq<Case>) {
    forall i :: 0 <= i < |cases| ==> cases[i].metric.Some? && cases[i].metric.value.status == Pass
  }

  lemma QuotientAtLeast(numerator: int, denominator: int, threshold: real)
    requires denominator > 0
    ensures Rate(numerator, denominator) >= threshold <==> numerator as real >= threshold * (denominator as real)
  {
    var d := denominator as real;
    var q := Rate(numerator, denominator);
    assert q * d == numerator as real;
    if q >= threshold {
      assert (q - threshold) * d >= 0.0;
    } else {
      assert (threshold - q) * d > 0.0;
    }
  }

  /** The pooled ratio lies between those of the cases: all reach the threshold, so does it. */
  lemma {:induction false} Pooled(cases: seq<Case>, threshold: real)
    requires AllSound(cases, threshold)
    ensures 0 <= NumeratorSum(cases, threshold) <= DenominatorSum(cases, threshold)
    ensures DenominatorSum(cases, threshold) > 0 <==> cases != []
    ensures AllPass(cases) ==>
      NumeratorSum(cases, threshold) as real >= threshold * (DenominatorSum(cases, threshold) as real)
  {
    if cases != [] {
      var init, last := cases[..|cases| - 1], cases[|cases| - 1];
      Pooled(init, threshold);
      QuotientAtLeast(last.metric.value.numerator.value, last.metric.value.denominator.value, threshold);
    }
  }

  lemma {:induction false} InvalidCases(cases: seq<Case>, threshold: real)
    ensures InvalidIds(cases, threshold) == [] <==> AllSound(cases, threshold)
    ensures AllSound(cases, threshold) ==> (FailedIds(cases, threshold) == [] <==> AllPass(cases))
  {
    if cases != [] {
      var init, last := cases[..|cases| - 1], cases[|cases| - 1];
      InvalidCases(init, threshold);
      assert forall i :: 0 <= i < |init| ==> init[i] == cases[i];
      assert cases == init + [last];
    }
  }

  ghost predicate HasPooledRate(metric: Metric, cases: seq<Case>, threshold: real) {
    var n, d := NumeratorSum(cases, threshold), DenominatorSum(cases, threshold);
    d > 0 && metric.numerator == Int(n) && metric.denominator == Int(d) && metric.rate == Some(Rate(n, d))
  }

  /** `aggregate_ratio`: pooling neither rescues nor sinks. The rollup passes exactly when there is
      a case and every case is sound and passes alone; it fails exactly when all are sound and one
      of them fails; a case that is missing or unsound leaves it unknown. */
  method AggregateRatio(cases: seq<Case>, unknownIds: seq<string>, threshold: real)
    returns (metric: Metric, invalidIds: seq<string>, failedIds: seq<string>)
    ensures invalidIds == unknownIds + InvalidIds(cases, threshold) && failedIds == FailedIds(cases, threshold)
    ensures metric.status == Pass <==> unknownIds == [] && cases != [] && AllSound(cases, threshold) && AllPass(cases)
    ensures metric.status == Fail <==> unknownIds == [] && cases != [] && AllSound(cases, threshold) && !AllPass(cases)
    ensures metric.status != Unknown ==> HasPooledRate(metric, cases, threshold)
  {
    hide IsSound, AllPass, AllSound;
    var numerator, denominator := 0, 0;
    invalidIds, failedIds := unknownIds, [];
    for i := 0 to |cases|
      invariant invalidIds == unknownIds + InvalidIds(cases[..i], threshold)
        && failedIds == FailedIds(cases[..i], threshold)
      invariant numerator == NumeratorSum(cases[..i], threshold) && denominator == DenominatorSum(cases[..i], threshold)
    {
      assert cases[..i + 1][..i] == cases[..i];
      var sound := CheckCase(cases[i], threshold);
      if !sound {
        invalidIds := invalidIds + [cases[i].id];
        continue;
      }
      SoundCase(cases[i], threshold);
      if cases[i].metric.value.status == Fail {
        failedIds := failedIds + [cases[i].id];
      }
      numerator := numerator + cases[i].metric.value.numerator.value;
      denominator := denominator + cases[i].metric.value.denominator.value;
    }
    assert cases[..|cases|] == cases;
    InvalidCases(cases, threshold);
    if invalidIds == [] {
      Pooled(cases, threshold);
      if cases != [] {
        QuotientAtLeast(numerator, denominator, threshold);
      }
    }
    metric := RatioMetric(if invalidIds == [] then Int(numerator) else NotInt,
      if invalidIds == [] then Int(denominator) else NotInt, threshold);
    if failedIds != [] && invalidIds == [] {
      metric := metric.(status := Fail);
    }
  }

  lemma SoundCase(c: Case, threshold: real)
    requires IsSound(c, threshold)
    ensures c.metric.Some? && c.metric.value.numerator.Int? && c.metric.value.denominator.Int?
  {
  }

  /** The checks of the rollup's loop body, in its order. */
  method CheckCase(c: Case, threshold: real) returns (sound: bool)
    ensures sound <==> IsSound(c, threshold)
  {
    if c.metric.None? {
      return false;
    }
    var m := c.metric.value;
    if m.status == Unknown {
      return false;
    }
    if m.numerator.NotInt? || m.denominator.NotInt? || m.denominator.value <= 0
      || !(0 <= m.numerator.value <= m.denominator.value)
    {
      return false;
    }
    var expected := if Rate(m.numerator.value, m.denominator.value) >= threshold then Pass else Fail;
    return m.status == expected;
  }
}
