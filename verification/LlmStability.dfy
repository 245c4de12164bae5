/** Stability of repeated LLM conversion runs (scripts/evaluate_dataset.py,
    `validate_llm_run_outcome`, `most_common_fingerprint`, `reference_run_metadata` and
    `evaluate_llm_stability`). A run set is described by metrics that cannot depend on the order
    of the runs. */
module LlmStability {
  import opened Prelude
  import opened PythonText
  import opened TextOrder

  // ---- Runs

  /** A field that is not a boolean is None. */
  datatype Outcome = Outcome(passed: Option<bool>, attempted: Option<bool>, repaired: Option<bool>,
      fallback: Option<bool>, violation: Option<bool>)

  datatype Reported = NoOutcome | Malformed | Given(outcome: Outcome)

  /** A fingerprint is None when the plan or the confirmed values are not valid. */
  datatype Run = Run(id: string, plan: Option<string>, values: Option<string>, reported: Reported)

  datatype Part = Plan | Values

  datatype Flag = SchemaFailure | RepairAttempt | Repair | Fallback | Violation

  const CLEAN := Outcome(Some(true), Some(false), Some(false), Some(false), Some(false))

  ghost function OutcomeOf(run: Run): Option<Outcome> {
    match run.reported
    case NoOutcome => Some(CLEAN)
    case Malformed => None
    case Given(outcome) => Some(outcome)
  }

  ghost predicate IsComplete(o: Outcome) {
    o.passed.Some? && o.attempted.Some? && o.repaired.Some? && o.fallback.Some? && o.violation.Some?
  }

  /** A schema failure ends in a repair that was attempted, or in the fallback, and not in both;
      a success in neither. */
  ghost predicate IsConsistent(o: Outcome)
    requires IsComplete(o)
  {
    if o.passed.value then !o.attempted.value && !o.repaired.value && !o.fallback.value
    else (o.repaired.value <==> !o.fallback.value) && (o.repaired.value ==> o.attempted.value)
  }

  /** `validate_llm_run_outcome`, with its checks in order. */
  method ValidateOutcome(run: Run) returns (outcome: Option<Outcome>)
    ensures outcome.Some? <==> HasValidOutcome(run)
    ensures outcome.Some? ==> outcome == OutcomeOf(run)
  {
    var o: Outcome;
    match run.reported {
      case NoOutcome => o := Outcome(Some(true), Some(false), Some(false), Some(false), Some(false));
      case Malformed => return None;
      case Given(reported) => o := reported;
    }
    if o.passed.None? || o.attempted.None? || o.repaired.None? || o.fallback.None? || o.violation.None? {
      return None;
    }
    var passed, attempted, repaired, fallback := o.passed.value, o.attempted.value, o.repaired.value, o.fallback.value;
    if repaired && !attempted {
      return None;
    }
    if passed && (attempted || repaired) {
      return None;
    }
    if passed && fallback {
      return None;
    }
    if !passed && repaired && fallback {
      return None;
    }
    if !passed && !repaired && !fallback {
      return None;
    }
    return Some(o);
  }

  ghost predicate HasValidOutcome(run: Run) {
    OutcomeOf(run).Some? && IsComplete(OutcomeOf(run).value) && IsConsistent(OutcomeOf(run).value)
  }

  ghost predicate IsValid(run: Run) {
    !IsBlank(run.id) && run.plan.Some? && run.values.Some? && HasValidOutcome(run)
  }

  ghost function Fingerprint(run: Run, part: Part): string
    requires IsValid(run)
  {
    if part == Plan then run.plan.value else run.values.value
  }

  lemma ValidPrints(run: Run)
    requires IsValid(run)
    ensures run.plan == Some(Fingerprint(run, Plan)) && run.values == Some(Fingerprint(run, Values))
  {
  }

  ghost predicate HasFlag(run: Run, flag: Flag)
    requires IsValid(run)
  {
    var o := OutcomeOf(run).value;
    match flag
    case SchemaFailure => !o.passed.value
    case RepairAttempt => o.attempted.value
    case Repair => o.repaired.value
    case Fallback => o.fallback.value
    case Violation => o.violation.value
  }

  ghost predicate AllValid(runs: set<Run>) {
    forall r :: r in runs ==> IsValid(r)
  }

  // ---- The metrics of a set of runs

  ghost function Flagged(runs: set<Run>, flag: Flag): set<Run>
    requires AllValid(runs)
  {
    set r | r in runs && HasFlag(r, flag)
  }

  ghost function Matching(runs: set<Run>, part: Part, fingerprint: string): set<Run>
    requires AllValid(runs)
  {
    set r | r in runs && Fingerprint(r, part) == fingerprint
  }

  ghost function Fingerprints(runs: set<Run>, part: Part): set<string>
    requires AllValid(runs)
  {
    set r | r in runs :: Fingerprint(r, part)
  }

  /** The most frequent fingerprint, the least of them in a tie. */
  ghost predicate IsReference(runs: set<Run>, part: Part, x: string)
    requires AllValid(runs)
  {
    && x in Fingerprints(runs, part)
    && (forall y :: y in Fingerprints(runs, part) ==> |Matching(runs, part, y)| <= |Matching(runs, part, x)|)
    && (forall y :: y in Fingerprints(runs, part) && |Matching(runs, part, y)| == |Matching(runs, part, x)| ==> !Less(y, x))
  }

  lemma ReferenceIsUnique(runs: set<Run>, part: Part, x: string, y: string)
    requires AllValid(runs) && IsReference(runs, part, x) && IsReference(runs, part, y)
    ensures x == y
  {
    Total(x, y);
  }

  /** One run that has both reference fingerprints, or one for each. */
  datatype References = Joint(id: string) | Separate(plan: string, values: string)

  datatype Example = Example(references: References, id: string, planChanged: bool, valuesChanged: bool)

  datatype Metrics = Metrics(
    runCount: nat, planRate: real, valueRate: real, failureRate: real, repairRate: real, fallbackRate: real,
    violations: nat, distinctPlans: nat, distinctValues: nat, unstableCount: nat, examples: seq<Example>)

  ghost function Ratio(n: nat, d: nat): real {
    if d == 0 then 0.0 else n as real / d as real
  }

  ghost function Ids(runs: set<Run>): set<string> {
    set r | r in runs :: r.id
  }

  ghost predicate AreReferences(runs: set<Run>, plan: string, values: string, refs: References)
    requires AllValid(runs)
  {
    var joint := Matching(runs, Plan, plan) * Matching(runs, Values, values);
    match refs
    case Joint(id) => IsLeast(Ids(joint), id)
    case Separate(p, v) =>
      joint == {} && IsLeast(Ids(Matching(runs, Plan, plan)), p) && IsLeast(Ids(Matching(runs, Values, values)), v)
  }

  ghost function Unstable(runs: set<Run>, plan: string, values: string): set<Run>
    requires AllValid(runs)
  {
    runs - Matching(runs, Plan, plan) * Matching(runs, Values, values)
  }

  /** All examples, by ascending run id. */
  ghost predicate AreExamples(runs: set<Run>, plan: string, values: string, refs: References, all: seq<Example>)
    requires AllValid(runs)
  {
    && (forall i, k :: 0 <= i < k < |all| ==> Less(all[i].id, all[k].id))
    && (forall e :: e in all <==> exists r :: r in Unstable(runs, plan, values) && e == ExampleOf(r, plan, values, refs))
  }

  ghost function ExampleOf(r: Run, plan: string, values: string, refs: References): Example
    requires IsValid(r)
  {
    Example(refs, r.id, Fingerprint(r, Plan) != plan, Fingerprint(r, Values) != values)
  }

  ghost predicate Describes(runs: set<Run>, plan: string, values: string, refs: References, all: seq<Example>,
      m: Metrics)
    requires AllValid(runs)
  {
    && IsReference(runs, Plan, plan) && IsReference(runs, Values, values) && AreReferences(runs, plan, values, refs)
    && AreExamples(runs, plan, values, refs, all)
    && m == Metrics(|runs|, Ratio(|Matching(runs, Plan, plan)|, |runs|),
                    Ratio(|Matching(runs, Values, values)|, |runs|),
                    Ratio(|Flagged(runs, SchemaFailure)|, |runs|),
                    Ratio(|Flagged(runs, Repair)|, |Flagged(runs, RepairAttempt)|),
                    Ratio(|Flagged(runs, Fallback)|, |runs|), |Flagged(runs, Violation)|,
                    |Fingerprints(runs, Plan)|, |Fingerprints(runs, Values)|, |Unstable(runs, plan, values)|,
                    if |all| <= 3 then all else all[..3])
  }

  /** What the metrics of a set of runs are. */
  ghost predicate AreMetrics(runs: set<Run>, m: Metrics) {
    AllValid(runs) && exists plan, values, refs, all :: Describes(runs, plan, values, refs, all, m)
  }

  // ---- The metrics are determined by the set of runs

  lemma ReferencesAreUnique(runs: set<Run>, plan: string, values: string, a: References, b: References)
    requires AllValid(runs) && AreReferences(runs, plan, values, a) && AreReferences(runs, plan, values, b)
    ensures a == b
  {
    var joint := Matching(runs, Plan, plan) * Matching(runs, Values, values);
    if joint == {} {
      assert Ids(joint) == {};
      LeastIsUnique(Ids(Matching(runs, Plan, plan)), a.plan, b.plan);
      LeastIsUnique(Ids(Matching(runs, Values, values)), a.values, b.values);
    } else {
      LeastIsUnique(Ids(joint), a.id, b.id);
    }
  }

  ghost predicate IsSorted(all: seq<Example>) {
    forall i, k :: 0 <= i < k < |all| ==> Less(all[i].id, all[k].id)
  }

  lemma LastIsLast(all: seq<Example>, e: Example)
    requires IsSorted(all) && e in all
    ensures e == all[|all| - 1] || Less(e.id, all[|all| - 1].id)
    ensures e in all[..|all| - 1] <==> e != all[|all| - 1]
  {
    var i :| 0 <= i < |all| && all[i] == e;
    Irreflexive(e.id);
    var init := all[..|all| - 1];
    if i < |all| - 1 {
      assert init[i] == e;
    }
  }

  lemma {:induction false} SortedIsUnique(a: seq<Example>, b: seq<Example>)
    requires IsSorted(a) && IsSorted(b) && forall e :: e in a <==> e in b
    ensures a == b
  {
    FirstIsMember(a);
    FirstIsMember(b);
    if a != [] && b != [] {
      var la, lb := a[|a| - 1], b[|b| - 1];
      LastIsLast(a, lb);
      LastIsLast(b, la);
      if la != lb {
        Transitive(la.id, lb.id, la.id);
        Irreflexive(la.id);
      }
      var a', b' := a[..|a| - 1], b[..|b| - 1];
      forall e ensures e in a' <==> e in b' {
        if e in a {
          LastIsLast(a, e);
          LastIsLast(b, e);
        }
      }
      SortedIsUnique(a', b');
      assert a == a' + [la] && b == b' + [lb];
    }
  }

  lemma MetricsAreUnique(runs: set<Run>, a: Metrics, b: Metrics)
    requires AreMetrics(runs, a) && AreMetrics(runs, b)
    ensures a == b
  {
    hide IsReference, AreReferences, Less;
    var pa, va, ra, xa :| Describes(runs, pa, va, ra, xa, a);
    var pb, vb, rb, xb :| Describes(runs, pb, vb, rb, xb, b);
    ReferenceIsUnique(runs, Plan, pa, pb);
    ReferenceIsUnique(runs, Values, va, vb);
    ReferencesAreUnique(runs, pa, va, ra, rb);
    SortedIsUnique(xa, xb);
  }

  ghost function SetOf(runs: seq<Run>): set<Run> {
    set r | r in runs
  }

  lemma SameMembers(runs: seq<Run>, permuted: seq<Run>)
    requires multiset(runs) == multiset(permuted)
    ensures SetOf(runs) == SetOf(permuted)
  {
    forall r ensures r in runs <==> r in permuted {
      assert r in runs <==> r in multiset(runs);
      assert r in permuted <==> r in multiset(permuted);
    }
  }

  /** The order of the runs changes nothing, neither the reference runs nor the examples kept. */
  lemma OrderIsIrrelevant(runs: seq<Run>, permuted: seq<Run>, a: Metrics, b: Metrics)
    requires multiset(runs) == multiset(permuted)
    requires AreMetrics(SetOf(runs), a) && AreMetrics(SetOf(permuted), b)
    ensures a == b
  {
    hide AreMetrics;
    SameMembers(runs, permuted);
    MetricsAreUnique(SetOf(runs), a, b);
  }

  // ---- What the numbers mean

  ghost function MatchingAny(runs: set<Run>, part: Part, prints: set<string>): set<Run>
    requires AllValid(runs)
  {
    set r | r in runs && Fingerprint(r, part) in prints
  }

  lemma {:induction false} ManyFewPrints(runs: set<Run>, part: Part, prints: set<string>, most: nat)
    requires AllValid(runs) && forall x :: x in prints ==> |Matching(runs, part, x)| <= most
    ensures |MatchingAny(runs, part, prints)| <= |prints| * most
  {
    hide IsValid, Fingerprint;
    if prints == {} {
      assert MatchingAny(runs, part, prints) == {};
    } else {
      var x :| x in prints;
      ManyFewPrints(runs, part, prints - {x}, most);
      assert MatchingAny(runs, part, prints) == MatchingAny(runs, part, prints - {x}) + Matching(runs, part, x);
      assert |prints| == |prints - {x}| + 1;
      Times(|prints - {x}|, most);
    }
  }

  lemma Times(n: nat, m: nat)
    ensures (n + 1) * m == n * m + m
  {
  }

  /** Pigeonhole: the runs that match the reference, times the distinct fingerprints, reach all
      runs. */
  lemma MatchesTimesDistinct(runs: set<Run>, part: Part, reference: string)
    requires AllValid(runs) && IsReference(runs, part, reference)
    ensures |Matching(runs, part, reference)| * |Fingerprints(runs, part)| >= |runs|
  {
    hide IsValid, Fingerprint;
    ManyFewPrints(runs, part, Fingerprints(runs, part), |Matching(runs, part, reference)|);
    assert MatchingAny(runs, part, Fingerprints(runs, part)) == runs;
  }

  lemma WholeRatio(n: nat, d: nat)
    requires n <= d && d > 0
    ensures Ratio(n, d) == 1.0 <==> n == d
  {
    var q := Ratio(n, d);
    assert q * (d as real) == n as real;
  }

  /** A rate is 1 exactly when there is one fingerprint. */
  lemma RateOneIsOnePrint(runs: set<Run>, part: Part, reference: string)
    requires AllValid(runs) && runs != {} && IsReference(runs, part, reference)
    ensures Ratio(|Matching(runs, part, reference)|, |runs|) == 1.0 <==> |Fingerprints(runs, part)| == 1
    ensures Ratio(|Matching(runs, part, reference)|, |runs|) == 1.0 <==> Matching(runs, part, reference) == runs
  {
    hide IsValid, Fingerprint;
    SubsetSize(Matching(runs, part, reference), runs);
    SubsetSize({reference}, Fingerprints(runs, part));
    WholeRatio(|Matching(runs, part, reference)|, |runs|);
    if Matching(runs, part, reference) == runs {
      forall x | x in Fingerprints(runs, part) ensures x == reference {
        var r :| r in runs && Fingerprint(r, part) == x;
        assert r in Matching(runs, part, reference);
      }
      assert Fingerprints(runs, part) == {reference};
    } else if |Fingerprints(runs, part)| == 1 {
      assert Fingerprints(runs, part) == {reference};
      forall r | r in runs ensures r in Matching(runs, part, reference) {
        assert Fingerprint(r, part) in Fingerprints(runs, part);
      }
    }
  }

  /** No run is unstable exactly when both rates are 1. */
  lemma StableIsBothRates(runs: set<Run>, plan: string, values: string)
    requires AllValid(runs) && runs != {} && IsReference(runs, Plan, plan) && IsReference(runs, Values, values)
    ensures |Unstable(runs, plan, values)| == 0 <==>
      Ratio(|Matching(runs, Plan, plan)|, |runs|) == 1.0 && Ratio(|Matching(runs, Values, values)|, |runs|) == 1.0
  {
    hide IsReference, IsValid, Fingerprint;
    RateOneIsOnePrint(runs, Plan, plan);
    RateOneIsOnePrint(runs, Values, values);
    if |Unstable(runs, plan, values)| == 0 {
      assert runs <= Matching(runs, Plan, plan) * Matching(runs, Values, values);
    }
  }

  /** Every schema failure was repaired or fell back, and repairs were attempted only after one. */
  lemma FailuresAreHandled(runs: set<Run>)
    requires AllValid(runs)
    ensures |Flagged(runs, SchemaFailure)| == |Flagged(runs, Repair)| + |Flagged(runs, Fallback)|
    ensures |Flagged(runs, Repair)| <= |Flagged(runs, RepairAttempt)| <= |Flagged(runs, SchemaFailure)|
  {
    assert Flagged(runs, SchemaFailure) == Flagged(runs, Repair) + Flagged(runs, Fallback);
    assert Flagged(runs, Repair) !! Flagged(runs, Fallback);
    SubsetSize(Flagged(runs, Repair), Flagged(runs, RepairAttempt));
    SubsetSize(Flagged(runs, RepairAttempt), Flagged(runs, SchemaFailure));
  }

  lemma RateTimesDistinct(matches: nat, n: nat, distinct: nat)
    requires n > 0 && matches * distinct >= n
    ensures Ratio(matches, n) * (distinct as real) >= 1.0
  {
    var q, d, r := Ratio(matches, n), distinct as real, n as real;
    assert q * r == matches as real;
    assert (q * d) * r == (q * r) * d == (matches as real) * d;
    assert (matches as real) * d == (matches * distinct) as real;
    if q * d < 1.0 {
      assert (q * d) * r < 1.0 * r;
    }
  }

  lemma RatioOrder(a: nat, b: nat, n: nat)
    requires a <= b
    ensures Ratio(a, n) <= Ratio(b, n)
  {
    if n > 0 {
      assert (b as real - a as real) / (n as real) >= 0.0;
    }
  }

  /** The relations between the reported numbers. */
  lemma WhatMetricsMean(runs: set<Run>, m: Metrics)
    requires runs != {} && AreMetrics(runs, m)
    ensures m.planRate == 1.0 <==> m.distinctPlans == 1
    ensures m.valueRate == 1.0 <==> m.distinctValues == 1
    ensures m.planRate * (m.distinctPlans as real) >= 1.0 && m.valueRate * (m.distinctValues as real) >= 1.0
    ensures m.unstableCount == 0 <==> m.planRate == 1.0 && m.valueRate == 1.0
    ensures m.fallbackRate <= m.failureRate && m.repairRate <= 1.0
    ensures m.examples == [] <==> m.unstableCount == 0
  {
    hide IsReference, AreReferences, Less, Fingerprint, HasFlag, IsValid, Ratio, Matching, Flagged, Unstable;
    var plan, values, refs, all :| Describes(runs, plan, values, refs, all, m);
    RateOneIsOnePrint(runs, Plan, plan);
    RateOneIsOnePrint(runs, Values, values);
    MatchesTimesDistinct(runs, Plan, plan);
    MatchesTimesDistinct(runs, Values, values);
    RateTimesDistinct(|Matching(runs, Plan, plan)|, |runs|, |Fingerprints(runs, Plan)|);
    RateTimesDistinct(|Matching(runs, Values, values)|, |runs|, |Fingerprints(runs, Values)|);
    StableIsBothRates(runs, plan, values);
    FailuresAreHandled(runs);
    RatioOrder(|Flagged(runs, Fallback)|, |Flagged(runs, SchemaFailure)|, |runs|);
    AtMostOne(|Flagged(runs, Repair)|, |Flagged(runs, RepairAttempt)|);
    SomeExample(runs, plan, values, refs, all);
  }

  lemma AtMostOne(a: nat, b: nat)
    requires a <= b
    ensures Ratio(a, b) <= 1.0
  {
    if b > 0 {
      assert Ratio(a, b) * (b as real) == a as real;
    }
  }

  lemma SomeExample(runs: set<Run>, plan: string, values: string, refs: References, all: seq<Example>)
    requires AllValid(runs) && AreExamples(runs, plan, values, refs, all)
    ensures all == [] <==> Unstable(runs, plan, values) == {}
  {
    hide IsValid, Less, Unstable;
    FirstIsMember(all);
    if r :| r in Unstable(runs, plan, values) {
      UnstableIsRun(runs, plan, values, r);
      assert ExampleOf(r, plan, values, refs) in all;
    }
  }

  lemma UnstableIsRun(runs: set<Run>, plan: string, values: string, r: Run)
    requires AllValid(runs) && r in Unstable(runs, plan, values)
    ensures r in runs
  {
  }

  // ---- Computing the metrics

  lemma AddRun(runs: set<Run>, r: Run, flag: Flag)
    requires AllValid(runs) && IsValid(r) && r !in runs
    ensures |Flagged(runs + {r}, flag)| == |Flagged(runs, flag)| + if HasFlag(r, flag) then 1 else 0
  {
    hide IsValid, HasFlag;
    if HasFlag(r, flag) {
      assert Flagged(runs + {r}, flag) == Flagged(runs, flag) + {r};
    } else {
      assert Flagged(runs + {r}, flag) == Flagged(runs, flag);
    }
  }

  ghost predicate NoRepeats(runs: seq<Run>) {
    forall i, k :: 0 <= i < k < |runs| ==> runs[i].id != runs[k].id
  }

  ghost function Prints(runs: seq<Run>, part: Part): seq<string>
    requires forall i :: 0 <= i < |runs| ==> IsValid(runs[i])
  {
    seq(|runs|, i requires 0 <= i < |runs| => Fingerprint(runs[i], part))
  }

  ghost predicate EachValid(runs: seq<Run>) {
    forall i :: 0 <= i < |runs| ==> IsValid(runs[i])
  }

  lemma NewRun(init: seq<Run>, last: Run)
    requires NoRepeats(init + [last])
    ensures NoRepeats(init) && last !in SetOf(init) && SetOf(init + [last]) == SetOf(init) + {last}
  {
    var runs := init + [last];
    assert runs[|init|] == last;
    assert forall i :: 0 <= i < |init| ==> runs[i] == init[i];
  }

  lemma AddMatching(runs: set<Run>, last: Run, part: Part, x: string)
    requires AllValid(runs) && IsValid(last) && last !in runs
    ensures |Matching(runs + {last}, part, x)| == |Matching(runs, part, x)|
      + if Fingerprint(last, part) == x then 1 else 0
  {
    hide IsValid, Fingerprint;
    if Fingerprint(last, part) == x {
      assert Matching(runs + {last}, part, x) == Matching(runs, part, x) + {last};
    } else {
      assert Matching(runs + {last}, part, x) == Matching(runs, part, x);
    }
  }

  /** The list of fingerprints holds each as often as there are runs with it. */
  lemma {:induction false} PrintCounts(runs: seq<Run>, part: Part, x: string)
    requires EachValid(runs) && NoRepeats(runs)
    ensures multiset(Prints(runs, part))[x] == |Matching(SetOf(runs), part, x)|
  {
    hide IsValid, Fingerprint, NoRepeats;
    if runs == [] {
      assert Matching(SetOf(runs), part, x) == {};
    } else {
      var init, last := runs[..|runs| - 1], runs[|runs| - 1];
      assert runs == init + [last];
      NewRun(init, last);
      PrintCounts(init, part, x);
      AddMatching(SetOf(init), last, part, x);
      assert Prints(runs, part) == Prints(init, part) + [Fingerprint(last, part)];
    }
  }

  /** Comes before in the order of `(-count, fingerprint)`. */
  predicate Precedes(counts: map<string, nat>, x: string, y: string)
    requires x in counts && y in counts
  {
    counts[x] > counts[y] || (counts[x] == counts[y] && Less(x, y))
  }

  lemma PrecedesTransitive(counts: map<string, nat>, x: string, y: string, z: string)
    requires x in counts && y in counts && z in counts && Precedes(counts, x, y) && Precedes(counts, y, z)
    ensures Precedes(counts, x, z)
  {
    if Less(x, y) && Less(y, z) {
      Transitive(x, y, z);
    }
  }

  ghost predicate IsMostCommon(prints: seq<string>, x: string) {
    x in prints && forall y :: y in prints ==> NoMoreCommon(prints, y, x)
  }

  ghost predicate NoMoreCommon(prints: seq<string>, y: string, x: string) {
    multiset(prints)[y] <= multiset(prints)[x] && (multiset(prints)[y] == multiset(prints)[x] ==> !Less(y, x))
  }

  /** `most_common_fingerprint` */
  method MostCommonFingerprint(prints: seq<string>) returns (best: string)
    requires prints != []
    ensures IsMostCommon(prints, best)
  {
    var counts: map<string, nat> := map[];
    for i := 0 to |prints|
      invariant forall x :: x in counts <==> x in prints[..i]
      invariant forall x :: x in counts ==> counts[x] == multiset(prints[..i])[x]
    {
      assert prints[..i + 1] == prints[..i] + [prints[i]];
      counts := counts[prints[i] := if prints[i] in counts then counts[prints[i]] + 1 else 1];
    }
    assert prints[..|prints|] == prints;
    best := prints[0];
    Irreflexive(best);
    for i := 1 to |prints|
      invariant best in prints
      invariant forall k :: 0 <= k < i ==> !Precedes(counts, prints[k], best)
    {
      if Precedes(counts, prints[i], best) {
        forall k | 0 <= k < i ensures !Precedes(counts, prints[k], prints[i]) {
          if Precedes(counts, prints[k], prints[i]) {
            PrecedesTransitive(counts, prints[k], prints[i], best);
          }
        }
        best := prints[i];
        Irreflexive(best);
      }
    }
  }

  lemma DistinctPrints(runs: seq<Run>, part: Part)
    requires EachValid(runs)
    ensures (set x | x in Prints(runs, part)) == Fingerprints(SetOf(runs), part)
  {
    hide IsValid, Fingerprint;
    var prints := Prints(runs, part);
    forall x ensures x in prints <==> x in Fingerprints(SetOf(runs), part) {
      if x in prints {
        var i :| 0 <= i < |prints| && prints[i] == x;
        assert runs[i] in SetOf(runs);
      }
      if x in Fingerprints(SetOf(runs), part) {
        var r :| r in SetOf(runs) && Fingerprint(r, part) == x;
        var i :| 0 <= i < |runs| && runs[i] == r;
        assert prints[i] == x;
      }
    }
  }

  lemma MostCommonIsReference(runs: seq<Run>, part: Part, x: string)
    requires EachValid(runs) && NoRepeats(runs) && IsMostCommon(Prints(runs, part), x)
    ensures IsReference(SetOf(runs), part, x)
  {
    hide IsValid, Fingerprint, Less, Matching, Prints, NoRepeats, Fingerprints, SetOf;
    EachInSet(runs);
    DistinctPrints(runs, part);
    var prints := Prints(runs, part);
    assert x in (set p | p in prints);
    PrintCounts(runs, part, x);
    forall y | y in Fingerprints(SetOf(runs), part)
      ensures |Matching(SetOf(runs), part, y)| <= |Matching(SetOf(runs), part, x)|
      ensures |Matching(SetOf(runs), part, y)| == |Matching(SetOf(runs), part, x)| ==> !Less(y, x)
    {
      assert y in (set p | p in prints);
      PrintCounts(runs, part, y);
      assert NoMoreCommon(prints, y, x);
    }
  }

  lemma EachInSet(runs: seq<Run>)
    requires EachValid(runs)
    ensures AllValid(SetOf(runs))
  {
    hide IsValid;
  }

  method SelectIds(runs: seq<Run>, plan: Option<string>, values: Option<string>)
    returns (ids: seq<string>, ghost selected: set<Run>)
    requires EachValid(runs)
    ensures selected == set r | r in SetOf(runs) && (plan.Some? ==> Fingerprint(r, Plan) == plan.value)
      && (values.Some? ==> Fingerprint(r, Values) == values.value)
    ensures (set id | id in ids) == Ids(selected) && (ids == [] <==> selected == {})
  {
    hide IsValid, Fingerprint;
    ids, selected := [], {};
    for i := 0 to |runs|
      invariant selected == set r | r in SetOf(runs[..i]) && (plan.Some? ==> Fingerprint(r, Plan) == plan.value)
        && (values.Some? ==> Fingerprint(r, Values) == values.value)
      invariant (set id | id in ids) == Ids(selected) && (ids == [] <==> selected == {})
    {
      assert runs[..i + 1] == runs[..i] + [runs[i]];
      ValidPrints(runs[i]);
      if (plan.Some? ==> runs[i].plan == plan) && (values.Some? ==> runs[i].values == values) {
        assert Ids(selected + {runs[i]}) == Ids(selected) + {runs[i].id};
        ids, selected := ids + [runs[i].id], selected + {runs[i]};
      }
    }
    assert runs[..|runs|] == runs;
  }

  /** `reference_run_metadata` */
  method ReferenceRuns(runs: seq<Run>, plan: string, values: string) returns (refs: References)
    requires EachValid(runs) && IsReference(SetOf(runs), Plan, plan) && IsReference(SetOf(runs), Values, values)
    ensures AreReferences(SetOf(runs), plan, values, refs)
  {
    hide IsValid, Fingerprint, IsLeast;
    var all := SetOf(runs);
    var joint, both := SelectIds(runs, Some(plan), Some(values));
    assert both == Matching(all, Plan, plan) * Matching(all, Values, values);
    if joint != [] {
      var id := LeastOf(joint);
      return Joint(id);
    }
    var plans, p := SelectIds(runs, Some(plan), None);
    var valued, v := SelectIds(runs, None, Some(values));
    assert p == Matching(all, Plan, plan) && v == Matching(all, Values, values);
    SomeMatch(all, Plan, plan);
    SomeMatch(all, Values, values);
    var planId := LeastOf(plans);
    var valuesId := LeastOf(valued);
    return Separate(planId, valuesId);
  }

  lemma SomeMatch(runs: set<Run>, part: Part, x: string)
    requires AllValid(runs) && IsReference(runs, part, x)
    ensures Matching(runs, part, x) != {}
  {
    var r :| r in runs && Fingerprint(r, part) == x;
    assert r in Matching(runs, part, x);
  }

  // ---- The whole evaluation

  method InsertRun(sorted: seq<Run>, r: Run) returns (more: seq<Run>)
    requires IdsAscend(sorted) && forall i :: 0 <= i < |sorted| ==> sorted[i].id != r.id
    ensures IdsAscend(more) && forall q :: q in more <==> q in sorted || q == r
  {
    var k := 0;
    while k < |sorted| && Less(sorted[k].id, r.id)
      invariant 0 <= k <= |sorted|
      invariant forall i :: 0 <= i < k ==> Less(sorted[i].id, r.id)
    {
      k := k + 1;
    }
    more := sorted[..k] + [r] + sorted[k..];
    forall i | k <= i < |sorted| ensures Less(r.id, sorted[i].id) {
      Total(r.id, sorted[k].id);
      if k < i {
        Transitive(r.id, sorted[k].id, sorted[i].id);
      }
    }
  }

  ghost predicate IdsAscend(runs: seq<Run>) {
    forall i, k :: 0 <= i < k < |runs| ==> Less(runs[i].id, runs[k].id)
  }

  /** `sorted(runs, key=run_id)` */
  method SortRuns(runs: seq<Run>) returns (sorted: seq<Run>)
    requires NoRepeats(runs)
    ensures IdsAscend(sorted) && SetOf(sorted) == SetOf(runs)
  {
    hide Less;
    sorted := [];
    for n := 0 to |runs|
      invariant IdsAscend(sorted) && forall q :: q in sorted <==> q in runs[..n]
    {
      assert runs[..n + 1] == runs[..n] + [runs[n]];
      forall i | 0 <= i < |sorted| ensures sorted[i].id != runs[n].id {
        assert sorted[i] in runs[..n];
      }
      sorted := InsertRun(sorted, runs[n]);
    }
    assert runs[..|runs|] == runs;
  }

  ghost predicate IsStable(r: Run, plan: string, values: string)
    requires IsValid(r)
  {
    Fingerprint(r, Plan) == plan && Fingerprint(r, Values) == values
  }

  ghost function ExamplesOf(runs: seq<Run>, plan: string, values: string, refs: References): seq<Example>
    requires EachValid(runs)
  {
    if runs == [] then []
    else
      var init, last := ExamplesOf(runs[..|runs| - 1], plan, values, refs), runs[|runs| - 1];
      if IsStable(last, plan, values) then init else init + [ExampleOf(last, plan, values, refs)]
  }

  lemma UnstableStep(runs: set<Run>, last: Run, plan: string, values: string)
    requires AllValid(runs) && IsValid(last) && last !in runs
    ensures Unstable(runs + {last}, plan, values) == Unstable(runs, plan, values)
      + if IsStable(last, plan, values) then {} else {last}
    ensures |Unstable(runs + {last}, plan, values)| == |Unstable(runs, plan, values)|
      + if IsStable(last, plan, values) then 0 else 1
  {
    hide IsValid, Fingerprint;
    assert last !in Unstable(runs, plan, values);
  }

  lemma AscendingRuns(init: seq<Run>, last: Run)
    requires IdsAscend(init + [last])
    ensures IdsAscend(init) && last !in init && SetOf(init + [last]) == SetOf(init) + {last}
    ensures forall i :: 0 <= i < |init| ==> Less(init[i].id, last.id)
  {
    hide Less;
    var runs := init + [last];
    assert runs[|init|] == last;
    assert forall i :: 0 <= i < |init| ==> runs[i] == init[i];
    Irreflexive(last.id);
  }

  /** The examples are those of the unstable runs, ascending, with ids from `ids`. */
  ghost predicate Collects(unstable: set<Run>, ids: set<string>, plan: string, values: string, refs: References,
      all: seq<Example>)
    requires AllValid(unstable)
  {
    && IsSorted(all) && |all| == |unstable|
    && (forall k :: 0 <= k < |all| ==> all[k].id in ids)
    && (forall e :: e in all <==> Stems(unstable, plan, values, refs, e))
  }

  ghost predicate Stems(runs: set<Run>, plan: string, values: string, refs: References, e: Example)
    requires AllValid(runs)
  {
    exists r :: r in runs && e == ExampleOf(r, plan, values, refs)
  }

  lemma StemsMore(runs: set<Run>, last: Run, plan: string, values: string, refs: References, e: Example)
    requires AllValid(runs) && IsValid(last)
    ensures Stems(runs + {last}, plan, values, refs, e) <==>
      Stems(runs, plan, values, refs, e) || e == ExampleOf(last, plan, values, refs)
  {
    hide IsValid, ExampleOf;
    if Stems(runs, plan, values, refs, e) {
      var r :| r in runs && e == ExampleOf(r, plan, values, refs);
      assert r in runs + {last};
    }
    assert last in runs + {last};
  }

  lemma CollectMore(unstable: set<Run>, ids: set<string>, last: Run, plan: string, values: string, refs: References,
      all: seq<Example>)
    requires AllValid(unstable) && IsValid(last) && last !in unstable
      && Collects(unstable, ids, plan, values, refs, all)
    requires forall id :: id in ids ==> Less(id, last.id)
    ensures Collects(unstable + {last}, ids + {last.id}, plan, values, refs,
      all + [ExampleOf(last, plan, values, refs)])
  {
    hide IsValid, Less, ExampleOf, Stems;
    ExampleId(last, plan, values, refs);
    forall e
      ensures Stems(unstable + {last}, plan, values, refs, e) <==>
        Stems(unstable, plan, values, refs, e) || e == ExampleOf(last, plan, values, refs)
    {
      StemsMore(unstable, last, plan, values, refs, e);
    }
  }

  lemma UnstableIsSubset(runs: set<Run>, plan: string, values: string)
    requires AllValid(runs)
    ensures AllValid(Unstable(runs, plan, values)) && Unstable(runs, plan, values) <= runs
  {
    hide IsValid;
  }

  lemma IdsBelow(init: seq<Run>, last: Run)
    requires IdsAscend(init + [last])
    ensures forall id :: id in Ids(SetOf(init)) ==> Less(id, last.id)
  {
    hide Less;
    AscendingRuns(init, last);
    forall id | id in Ids(SetOf(init)) ensures Less(id, last.id) {
      var r :| r in SetOf(init) && r.id == id;
      var i :| 0 <= i < |init| && init[i] == r;
    }
  }

  lemma ExamplesStep(init: seq<Run>, last: Run, plan: string, values: string, refs: References)
    requires EachValid(init + [last])
    ensures EachValid(init) && IsValid(last) && AllValid(SetOf(init))
    ensures ExamplesOf(init + [last], plan, values, refs) ==
      if IsStable(last, plan, values) then ExamplesOf(init, plan, values, refs)
        else ExamplesOf(init, plan, values, refs) + [ExampleOf(last, plan, values, refs)]
  {
    hide IsValid, IsStable, ExampleOf;
    var runs := init + [last];
    assert runs[|init|] == last && runs[..|init|] == init;
    assert forall i :: 0 <= i < |init| ==> runs[i] == init[i];
  }

  lemma IdsMore(runs: set<Run>, last: Run)
    ensures Ids(runs + {last}) == Ids(runs) + {last.id}
  {
  }

  lemma CollectIds(unstable: set<Run>, ids: set<string>, id: string, plan: string, values: string, refs: References,
      all: seq<Example>)
    requires AllValid(unstable) && Collects(unstable, ids, plan, values, refs, all)
    ensures Collects(unstable, ids + {id}, plan, values, refs, all)
  {
    hide Stems;
  }

  /** The examples of ascending runs are those of the set of runs, ascending. */
  lemma {:induction false} ExamplesAreSorted(runs: seq<Run>, plan: string, values: string, refs: References)
    requires EachValid(runs) && IdsAscend(runs)
    ensures AllValid(SetOf(runs)) && AllValid(Unstable(SetOf(runs), plan, values))
    ensures Collects(Unstable(SetOf(runs), plan, values), Ids(SetOf(runs)), plan, values, refs,
      ExamplesOf(runs, plan, values, refs))
  {
    hide *;
    EachInSet(runs);
    UnstableIsSubset(SetOf(runs), plan, values);
    if runs == [] {
      NothingCollected(plan, values, refs);
    } else {
      var init, last := runs[..|runs| - 1], runs[|runs| - 1];
      assert runs == init + [last];
      AscendingRuns(init, last);
      IdsBelow(init, last);
      ExamplesStep(init, last, plan, values, refs);
      ExamplesAreSorted(init, plan, values, refs);
      NotInSet(init, last);
      UnstableStep(SetOf(init), last, plan, values);
      IdsMore(SetOf(init), last);
      var unstable, all := Unstable(SetOf(init), plan, values), ExamplesOf(init, plan, values, refs);
      if IsStable(last, plan, values) {
        assert Unstable(SetOf(runs), plan, values) == unstable;
        CollectIds(unstable, Ids(SetOf(init)), last.id, plan, values, refs, all);
      } else {
        UnstableIsSubset(SetOf(init), plan, values);
        CollectMore(unstable, Ids(SetOf(init)), last, plan, values, refs, all);
      }
    }
  }

  lemma NotInSet(init: seq<Run>, last: Run)
    requires last !in init
    ensures last !in SetOf(init)
  {
  }

  lemma NothingCollected(plan: string, values: string, refs: References)
    ensures AllValid(SetOf([])) && Unstable(SetOf([]), plan, values) == {}
      && Collects({}, Ids(SetOf([])), plan, values, refs, [])
    ensures ExamplesOf([], plan, values, refs) == []
  {
    assert SetOf([]) == {};
  }

  lemma ExampleId(r: Run, plan: string, values: string, refs: References)
    requires IsValid(r)
    ensures ExampleOf(r, plan, values, refs).id == r.id
  {
  }

  /** The loop that collects the unstable examples. */
  method UnstableExamples(runs: seq<Run>, plan: string, values: string, refs: References) returns (all: seq<Example>)
    requires EachValid(runs) && NoRepeats(runs)
    ensures AreExamples(SetOf(runs), plan, values, refs, all)
    ensures |all| == |Unstable(SetOf(runs), plan, values)|
  {
    hide Less, IsValid, Fingerprint, NoRepeats, IdsAscend;
    var sorted := SortRuns(runs);
    SortedAreValid(runs, sorted);
    all := [];
    for i := 0 to |sorted|
      invariant all == ExamplesOf(sorted[..i], plan, values, refs)
    {
      assert sorted[..i + 1][..i] == sorted[..i];
      var r := sorted[i];
      ValidPrints(r);
      var planChanged := r.plan.value != plan;
      var valuesChanged := r.values.value != values;
      if planChanged || valuesChanged {
        all := all + [Example(refs, r.id, planChanged, valuesChanged)];
      }
    }
    assert sorted[..|sorted|] == sorted;
    ExamplesAreSorted(sorted, plan, values, refs);
  }

  lemma SortedAreValid(runs: seq<Run>, sorted: seq<Run>)
    requires EachValid(runs) && SetOf(sorted) == SetOf(runs)
    ensures EachValid(sorted)
  {
    hide IsValid;
    forall i | 0 <= i < |sorted| ensures IsValid(sorted[i]) {
      assert sorted[i] in SetOf(sorted);
    }
  }

  datatype Failure = TooFew | WrongLength | BadRun(index: nat) | RepeatedId(index: nat)

  datatype Result = Ok(metrics: Metrics) | Err(failure: Failure)

  ghost predicate Accepted(runs: seq<Run>, n: int) {
    n >= 2 && |runs| == n && EachValid(runs) && NoRepeats(runs)
  }

  /** `ratio` */
  method Divide(numerator: nat, denominator: nat) returns (quotient: real)
    ensures quotient == Ratio(numerator, denominator)
  {
    if denominator == 0 {
      return 0.0;
    }
    quotient := numerator as real / denominator as real;
  }

  /** The plans and the values of the runs, in order. */
  method CollectPrints(runs: seq<Run>) returns (plans: seq<string>, values: seq<string>)
    requires EachValid(runs)
    ensures plans == Prints(runs, Plan) && values == Prints(runs, Values)
  {
    hide IsValid, Fingerprint;
    plans, values := [], [];
    for i := 0 to |runs|
      invariant |plans| == i && forall k :: 0 <= k < i ==> plans[k] == Fingerprint(runs[k], Plan)
      invariant |values| == i && forall k :: 0 <= k < i ==> values[k] == Fingerprint(runs[k], Values)
    {
      ValidPrints(runs[i]);
      plans, values := plans + [runs[i].plan.value], values + [runs[i].values.value];
    }
  }

  /** The loop of `evaluate_llm_stability`: validates every run and counts its flags. */
  method ReadRuns(runs: seq<Run>) returns (failure: Option<Failure>, failures: nat, attempts: nat, repairs: nat,
      fallbacks: nat, violations: nat)
    ensures failure.None? <==> EachValid(runs) && NoRepeats(runs)
    ensures failure.None? ==> Counted(SetOf(runs), failures, attempts, repairs, fallbacks, violations)
  {
    hide HasValidOutcome, IsBlank, NoRepeats, EachValid, Counted;
    var seen: set<string> := {};
    failures, attempts, repairs, fallbacks, violations := 0, 0, 0, 0, 0;
    NoRuns();
    for i := 0 to |runs|
      invariant EachValid(runs[..i]) && NoRepeats(runs[..i])
      invariant seen == Ids(SetOf(runs[..i]))
      invariant Counted(SetOf(runs[..i]), failures, attempts, repairs, fallbacks, violations)
    {
      var run := runs[i];
      ReadOne(runs, i);
      if IsBlank(run.id) {
        return Some(BadRun(i)), 0, 0, 0, 0, 0;
      }
      if run.id in seen {
        return Some(RepeatedId(i)), 0, 0, 0, 0, 0;
      }
      if run.plan.None? || run.values.None? {
        return Some(BadRun(i)), 0, 0, 0, 0, 0;
      }
      var outcome := ValidateOutcome(run);
      if outcome.None? {
        return Some(BadRun(i)), 0, 0, 0, 0, 0;
      }
      seen := seen + {run.id};
      ValidIsComplete(run);
      CountOne(SetOf(runs[..i]), run, outcome.value, failures, attempts, repairs, fallbacks, violations);
      var o := outcome.value;
      if !o.passed.value {
        failures := failures + 1;
      }
      if o.attempted.value {
        attempts := attempts + 1;
      }
      if o.repaired.value {
        repairs := repairs + 1;
      }
      if o.fallback.value {
        fallbacks := fallbacks + 1;
      }
      if o.violation.value {
        violations := violations + 1;
      }
    }
    assert runs[..|runs|] == runs;
    failure := None;
  }

  ghost predicate Counted(runs: set<Run>, failures: nat, attempts: nat, repairs: nat, fallbacks: nat, violations: nat) {
    && AllValid(runs)
    && failures == |Flagged(runs, SchemaFailure)| && attempts == |Flagged(runs, RepairAttempt)|
      && repairs == |Flagged(runs, Repair)|
    && fallbacks == |Flagged(runs, Fallback)| && violations == |Flagged(runs, Violation)|
  }

  lemma NoRuns()
    ensures EachValid([]) && NoRepeats([]) && SetOf([]) == {} && Counted({}, 0, 0, 0, 0, 0)
  {
  }

  lemma ValidIsComplete(run: Run)
    requires IsValid(run)
    ensures OutcomeOf(run).Some? && IsComplete(OutcomeOf(run).value)
  {
  }

  ghost function One(counts: bool): nat {
    if counts then 1 else 0
  }

  lemma CountOne(runs: set<Run>, r: Run, o: Outcome, failures: nat, attempts: nat, repairs: nat, fallbacks: nat,
      violations: nat)
    requires Counted(runs, failures, attempts, repairs, fallbacks, violations)
    requires IsValid(r) && r !in runs && OutcomeOf(r) == Some(o) && IsComplete(o)
    ensures Counted(runs + {r}, failures + One(!o.passed.value), attempts + One(o.attempted.value),
      repairs + One(o.repaired.value),
                    fallbacks + One(o.fallback.value), violations + One(o.violation.value))
  {
    hide IsValid, Flagged;
    AddRun(runs, r, SchemaFailure);
    AddRun(runs, r, RepairAttempt);
    AddRun(runs, r, Repair);
    AddRun(runs, r, Fallback);
    AddRun(runs, r, Violation);
  }

  lemma NextIds(runs: seq<Run>, i: nat)
    requires i < |runs|
    ensures SetOf(runs[..i + 1]) == SetOf(runs[..i]) + {runs[i]}
      && Ids(SetOf(runs[..i + 1])) == Ids(SetOf(runs[..i])) + {runs[i].id}
    ensures runs[i].id in Ids(SetOf(runs[..i])) <==> exists k :: 0 <= k < i && runs[k].id == runs[i].id
  {
    assert runs[..i + 1] == runs[..i] + [runs[i]];
    forall k | 0 <= k < i ensures runs[k].id in Ids(SetOf(runs[..i])) {
      assert runs[..i][k] == runs[k] && runs[k] in SetOf(runs[..i]);
    }
    if runs[i].id in Ids(SetOf(runs[..i])) {
      var r :| r in SetOf(runs[..i]) && r.id == runs[i].id;
      var k :| 0 <= k < i && runs[..i][k] == r;
      assert runs[k].id == runs[i].id;
    }
  }

  lemma NextIsNew(runs: seq<Run>, i: nat)
    requires i < |runs| && NoRepeats(runs[..i])
    ensures NoRepeats(runs[..i + 1]) <==> !(exists k :: 0 <= k < i && runs[k].id == runs[i].id)
    ensures NoRepeats(runs) ==> NoRepeats(runs[..i + 1])
  {
    assert runs[..i + 1] == runs[..i] + [runs[i]];
  }

  lemma NextIsValid(runs: seq<Run>, i: nat)
    requires i < |runs| && EachValid(runs[..i])
    ensures EachValid(runs[..i + 1]) <==> IsValid(runs[i])
    ensures EachValid(runs) ==> IsValid(runs[i])
  {
    hide IsValid;
    assert runs[..i + 1] == runs[..i] + [runs[i]];
  }

  lemma ReadOne(runs: seq<Run>, i: nat)
    requires i < |runs| && EachValid(runs[..i]) && NoRepeats(runs[..i])
    ensures IsValid(runs[i]) && runs[i].id !in Ids(SetOf(runs[..i])) ==>
      EachValid(runs[..i + 1]) && NoRepeats(runs[..i + 1]) && runs[i] !in SetOf(runs[..i])
    ensures SetOf(runs[..i + 1]) == SetOf(runs[..i]) + {runs[i]}
      && Ids(SetOf(runs[..i + 1])) == Ids(SetOf(runs[..i])) + {runs[i].id}
    ensures !IsValid(runs[i]) ==> !EachValid(runs)
    ensures runs[i].id in Ids(SetOf(runs[..i])) ==> !NoRepeats(runs)
  {
    hide IsValid, EachValid, NoRepeats, SetOf;
    NextIds(runs, i);
    NextIsNew(runs, i);
    NextIsValid(runs, i);
  }

  /** `evaluate_llm_stability` */
  method EvaluateStability(runs: seq<Run>, n: int) returns (result: Result)
    ensures result.Ok? <==> Accepted(runs, n)
    ensures result.Ok? ==> AreMetrics(SetOf(runs), result.metrics)
  {
    hide IsValid, Fingerprint, Less, NoRepeats, IsReference, AreReferences, AreExamples, Unstable;
    if n < 2 {
      return Err(TooFew);
    }
    if |runs| != n {
      return Err(WrongLength);
    }
    var failure, failures, attempts, repairs, fallbacks, violations := ReadRuns(runs);
    if failure.Some? {
      return Err(failure.value);
    }
    var plans, values := CollectPrints(runs);
    var plan := MostCommonFingerprint(plans);
    var value := MostCommonFingerprint(values);
    MostCommonIsReference(runs, Plan, plan);
    MostCommonIsReference(runs, Values, value);
    PrintCounts(runs, Plan, plan);
    PrintCounts(runs, Values, value);
    var planMatches := multiset(plans)[plan];
    var valueMatches := multiset(values)[value];
    var refs := ReferenceRuns(runs, plan, value);
    var all := UnstableExamples(runs, plan, value, refs);
    RunCount(runs);
    DistinctPrints(runs, Plan);
    DistinctPrints(runs, Values);
    var planRate := Divide(planMatches, n);
    var valueRate := Divide(valueMatches, n);
    var failureRate := Divide(failures, n);
    var repairRate := Divide(repairs, attempts);
    var fallbackRate := Divide(fallbacks, n);
    var metrics := Metrics(n, planRate, valueRate, failureRate, repairRate, fallbackRate, violations,
      |set x | x in plans|, |set x | x in values|, |all|, if |all| <= 3 then all else all[..3]);
    assert Describes(SetOf(runs), plan, value, refs, all, metrics);
    result := Ok(metrics);
  }

  lemma {:induction false} RunCount(runs: seq<Run>)
    requires NoRepeats(runs)
    ensures |SetOf(runs)| == |runs|
  {
    if runs != [] {
      var init, last := runs[..|runs| - 1], runs[|runs| - 1];
      assert runs == init + [last];
      NewRun(init, last);
      RunCount(init);
    }
  }
}
