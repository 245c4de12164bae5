/** High-risk accounting of one case (scripts/evaluate_dataset.py, the high-risk part of
    `mvp_case_metrics`) and its rollup over cases (`mvp_metrics_rollup`). */
module HighRisk {
  import opened Prelude
  import opened MvpPooling

  datatype Key = Key(document: string, block: string)

  /** What the source reads from an expected target; an absent or malformed part is None. */
  datatype Target = Target(key: Option<Key>, id: Option<string>)

  /** `key` is `mvp_high_risk_target_key`, `highRisk` is `mvp_review_item_is_high_risk`. */
  datatype Item = NotAMapping | Item(key: Option<Key>, highRisk: bool, autoConfirmed: bool, blockId: Option<string>)

  /** `targets` and `items` are None when they are not lists. `decisions` holds the decision texts
      by review item; `boundaryIds` the blocks of an OCR boundary that passed. */
  datatype Evidence = Evidence(
    targets: Option<seq<Target>>, items: Option<seq<Item>>, decisions: map<nat, string>,
    converted: string, boundaryPassed: bool, boundaryIds: set<string>)

  datatype Reason = TargetsMissing | TargetMalformed | TargetDuplicate | ItemsMalformed | ItemDuplicate | ItemUnexpected

  datatype Accounting = Accounting(status: Status, targets: nat, covered: nat, missed: int, autoConfirmed: nat,
      reasons: seq<Reason>)

  const DECISIONS := {"approved", "rejected", "needs_fix"}

  // ---- What is expected, item by item

  ghost predicate IsDeclared(t: Target) {
    t.key.Some? && t.id.Some? && t.id.value != ""
  }

  /** Well-formed targets with distinct keys and distinct identifiers. */
  ghost predicate TargetsAreSound(targets: seq<Target>) {
    && (forall i :: 0 <= i < |targets| ==> IsDeclared(targets[i]))
    && (forall i, j :: 0 <= i < j < |targets| ==> targets[i].key != targets[j].key && targets[i].id != targets[j].id)
  }

  /** The first target of each key and identifier counts. */
  ghost function ExpectedIds(targets: seq<Target>): map<Key, string> {
    if targets == [] then map[]
    else
      var ids, t := ExpectedIds(targets[..|targets| - 1]), targets[|targets| - 1];
      if IsDeclared(t) && t.key.value !in ids && t.id.value !in ids.Values then ids[t.key.value := t.id.value] else ids
  }

  ghost function Expected(e: Evidence): set<Key> {
    if e.targets.None? then {} else ExpectedIds(e.targets.value).Keys
  }

  function Items(e: Evidence): seq<Item> {
    if e.items.None? then [] else e.items.value
  }

  ghost predicate HasKey(item: Item, key: Key) {
    item.Item? && item.key == Some(key)
  }

  /** The first review item of a key. */
  ghost predicate IsFirst(items: seq<Item>, key: Key, i: int) {
    0 <= i < |items| && HasKey(items[i], key) && forall j :: 0 <= j < i ==> !HasKey(items[j], key)
  }

  ghost predicate IsPersisted(e: Evidence, i: nat) {
    i in e.decisions && e.decisions[i] in DECISIONS
  }

  /** Inside an accepted OCR boundary of a document that requires review. */
  ghost predicate InBoundary(e: Evidence, i: nat) {
    && i < |Items(e)| && e.boundaryPassed && e.converted == "requires_review"
    && Items(e)[i].Item? && Items(e)[i].blockId.Some? && Items(e)[i].blockId.value != ""
      && Items(e)[i].blockId.value in e.boundaryIds
  }

  ghost predicate IsAutoConfirmed(e: Evidence, i: nat) {
    && i < |Items(e)| && Items(e)[i].Item?
    && (Items(e)[i].autoConfirmed || (e.converted == "converted" && !IsPersisted(e, i)))
  }

  ghost predicate IsCovered(e: Evidence, i: nat) {
    IsPersisted(e, i) || InBoundary(e, i)
  }

  /** An item of an expected key is the first of it; any other item is not high-risk. */
  ghost predicate ItemIsSound(items: seq<Item>, expected: set<Key>, k: nat)
    requires k < |items|
  {
    items[k].Item? ==>
      if items[k].key.Some? && items[k].key.value in expected then IsFirst(items, items[k].key.value, k)
        else !items[k].highRisk
  }

  ghost predicate ItemsAreSound(items: seq<Item>, expected: set<Key>) {
    forall k :: 0 <= k < |items| ==> items[k].Item? && ItemIsSound(items, expected, k)
  }

  ghost predicate IsKnown(e: Evidence) {
    && e.targets.Some? && TargetsAreSound(e.targets.value)
    && e.items.Some? && ItemsAreSound(e.items.value, Expected(e))
  }

  /** The target has a review item that a person decided on, or that an accepted OCR boundary
      leaves to one, and that was not confirmed automatically. */
  ghost predicate IsAnswered(e: Evidence, key: Key) {
    exists i: nat :: IsFirst(Items(e), key, i) && IsCovered(e, i) && !IsAutoConfirmed(e, i)
  }

  // ---- The accounting

  lemma NewValue(ids: map<Key, string>, key: Key, id: string)
    requires key !in ids
    ensures ids[key := id].Values == ids.Values + {id}
  {
    var more := ids[key := id];
    assert more[key] == id;
    forall v | v in ids.Values + {id} ensures v in more.Values {
      if v in ids.Values {
        var k :| k in ids && ids[k] == v;
        assert more[k] == v;
      }
    }
  }

  ghost predicate KeyAmong(targets: seq<Target>, key: Key) {
    exists k :: 0 <= k < |targets| && targets[k].key == Some(key)
  }

  ghost predicate IdAmong(targets: seq<Target>, id: string) {
    exists k :: 0 <= k < |targets| && targets[k].id == Some(id)
  }

  lemma MoreAmong(targets: seq<Target>, t: Target)
    ensures forall key :: KeyAmong(targets + [t], key) <==> KeyAmong(targets, key) || t.key == Some(key)
    ensures forall id :: IdAmong(targets + [t], id) <==> IdAmong(targets, id) || t.id == Some(id)
  {
    var more := targets + [t];
    assert more[|targets|] == t;
    assert forall k :: 0 <= k < |targets| ==> more[k] == targets[k];
  }

  lemma SoundMore(targets: seq<Target>, t: Target)
    ensures TargetsAreSound(targets + [t]) <==>
      TargetsAreSound(targets) && IsDeclared(t) && !KeyAmong(targets, t.key.value) && !IdAmong(targets, t.id.value)
  {
    var more := targets + [t];
    assert more[|targets|] == t;
    assert forall k :: 0 <= k < |targets| ==> more[k] == targets[k];
  }

  lemma {:induction false} ExpectedOfSound(targets: seq<Target>)
    requires TargetsAreSound(targets)
    ensures forall key :: key in ExpectedIds(targets) <==> KeyAmong(targets, key)
    ensures forall id :: id in ExpectedIds(targets).Values <==> IdAmong(targets, id)
  {
    hide TargetsAreSound, KeyAmong, IdAmong;
    if targets == [] {
      NoneAmong();
    } else {
      var init, t := targets[..|targets| - 1], targets[|targets| - 1];
      assert targets == init + [t];
      SoundMore(init, t);
      MoreAmong(init, t);
      ExpectedOfSound(init);
      NewValue(ExpectedIds(init), t.key.value, t.id.value);
    }
  }

  lemma NoneAmong()
    ensures forall key :: !KeyAmong([], key)
    ensures forall id :: !IdAmong([], id)
  {
  }

  /** The loop over the expected targets. */
  method ReadTargets(targets: seq<Target>) returns (ids: map<Key, string>, reasons: seq<Reason>)
    ensures ids == ExpectedIds(targets)
    ensures reasons == [] <==> TargetsAreSound(targets)
  {
    hide TargetsAreSound, KeyAmong, IdAmong;
    ids, reasons := map[], [];
    NoTargets();
    for i := 0 to |targets|
      invariant ids == ExpectedIds(targets[..i])
      invariant reasons == [] <==> TargetsAreSound(targets[..i])
    {
      assert targets[..i + 1][..i] == targets[..i] && targets[..i + 1] == targets[..i] + [targets[i]];
      var t := targets[i];
      SoundMore(targets[..i], t);
      if reasons == [] {
        ExpectedOfSound(targets[..i]);
      }
      if t.key == None || t.id == None || t.id.value == "" {
        reasons := reasons + [TargetMalformed];
        continue;
      }
      if t.key.value in ids || t.id.value in ids.Values {
        reasons := reasons + [TargetDuplicate];
        continue;
      }
      ids := ids[t.key.value := t.id.value];
    }
    assert targets[..|targets|] == targets;
  }

  lemma NoTargets()
    ensures TargetsAreSound([])
  {
  }

  ghost predicate SoundUpTo(items: seq<Item>, expected: set<Key>, n: nat)
    requires n <= |items|
  {
    forall k :: 0 <= k < n ==> ItemIsSound(items, expected, k)
  }

  lemma SoundStep(items: seq<Item>, expected: set<Key>, n: nat)
    requires n < |items|
    ensures SoundUpTo(items, expected, n + 1) <==> SoundUpTo(items, expected, n) && ItemIsSound(items, expected, n)
  {
    hide ItemIsSound;
  }

  lemma NoneUnsound(items: seq<Item>, expected: set<Key>)
    ensures SoundUpTo(items, expected, 0)
  {
  }

  /** The loop over the review items: the first item of every expected key. */
  method ReadItems(items: seq<Item>, expected: set<Key>) returns (indexOf: map<Key, nat>, reasons: seq<Reason>)
    ensures forall key :: key in indexOf <==> key in expected && exists i :: 0 <= i < |items| && HasKey(items[i], key)
    ensures forall key :: key in indexOf ==> IsFirst(items, key, indexOf[key])
    ensures reasons == [] <==> SoundUpTo(items, expected, |items|)
  {
    hide SoundUpTo;
    NoneUnsound(items, expected);
    indexOf, reasons := map[], [];
    for i := 0 to |items|
      invariant forall key :: key in indexOf <==> key in expected && exists k :: 0 <= k < i && HasKey(items[k], key)
      invariant forall key :: key in indexOf ==> IsFirst(items, key, indexOf[key])
      invariant reasons == [] <==> SoundUpTo(items, expected, i)
    {
      SoundStep(items, expected, i);
      if items[i].NotAMapping? {
        continue;
      }
      var key := items[i].key;
      if key.Some? && key.value in indexOf {
        assert HasKey(items[indexOf[key.value]], key.value) && !ItemIsSound(items, expected, i);
        reasons := reasons + [ItemDuplicate];
        continue;
      }
      assert key.Some? && key.value in expected ==> IsFirst(items, key.value, i);
      if key.Some? && key.value in expected {
        indexOf := indexOf[key.value := i];
      } else if items[i].highRisk {
        reasons := reasons + [ItemUnexpected];
      }
    }
  }

  ghost function KeysCovered(e: Evidence): set<Key> {
    set key | key in Expected(e) && exists i: nat :: IsFirst(Items(e), key, i) && IsCovered(e, i)
  }

  ghost function KeysAutoConfirmed(e: Evidence): set<Key> {
    set key | key in Expected(e) && exists i: nat :: IsFirst(Items(e), key, i) && IsAutoConfirmed(e, i)
  }

  lemma OneFirst(items: seq<Item>, key: Key, i: int, j: int)
    requires IsFirst(items, key, i) && IsFirst(items, key, j)
    ensures i == j
  {
  }

  lemma {:induction false} SomeFirst(items: seq<Item>, key: Key, n: nat)
    requires n < |items| && HasKey(items[n], key)
    ensures exists i: nat :: IsFirst(items, key, i)
  {
    if j :| 0 <= j < n && HasKey(items[j], key) {
      SomeFirst(items, key, j);
    } else {
      assert IsFirst(items, key, n);
    }
  }

  /** Covered and missed targets add up, and a pass leaves none missed or confirmed automatically. */
  ghost predicate IsAccounting(a: Accounting) {
    && a.covered + a.missed == a.targets && 0 <= a.missed && a.autoConfirmed <= a.targets
    && (a.status == Pass ==> a.missed == 0 && a.autoConfirmed == 0)
  }

  ghost predicate Indexes(e: Evidence, indexOf: map<Key, nat>) {
    && (forall key :: key in indexOf <==> key in Expected(e) && exists i :: 0 <= i < |Items(e)| && HasKey(Items(e)[i], key))
    && (forall key :: key in indexOf ==> IsFirst(Items(e), key, indexOf[key]))
  }

  /** The first half: what is expected, which item answers for it, and what is wrong. */
  method ReadEvidence(e: Evidence) returns (ids: map<Key, string>, indexOf: map<Key, nat>, reasons: seq<Reason>)
    ensures ids.Keys == Expected(e) && Indexes(e, indexOf)
    ensures reasons == [] <==> IsKnown(e)
  {
    hide IsFirst, TargetsAreSound, ItemIsSound, ExpectedIds;
    reasons, ids := [], map[];
    if e.targets.None? {
      reasons := [TargetsMissing];
    } else {
      ids, reasons := ReadTargets(e.targets.value);
    }
    var items := Items(e);
    if e.items.None? || exists i :: 0 <= i < |items| && items[i].NotAMapping? {
      reasons := reasons + [ItemsMalformed];
    }
    var more;
    indexOf, more := ReadItems(items, ids.Keys);
    reasons := reasons + more;
  }

  /** The high-risk part of `mvp_case_metrics`. Covered and missed targets add up to the expected
      ones; the case passes exactly when the evidence is sound and every expected target is
      answered. */
  method AccountHighRisk(e: Evidence) returns (a: Accounting)
    ensures a.targets == |Expected(e)| && a.covered == |KeysCovered(e)| && a.autoConfirmed == |KeysAutoConfirmed(e)|
    ensures IsAccounting(a)
    ensures a.status == Unknown <==> !IsKnown(e)
    ensures a.status == Pass <==> IsKnown(e) && forall key :: key in Expected(e) ==> IsAnswered(e, key)
  {
    hide IsKnown, Indexes, IsAnswered, Expected, IsFirst, IsCovered, IsAutoConfirmed;
    var ids, indexOf, reasons := ReadEvidence(e);
    var covered, confirmed := CoveredAndConfirmed(e, indexOf);
    SubsetSize(covered, ids.Keys);
    SubsetSize(confirmed, ids.Keys);
    var missed := |ids| - |covered|;
    assert |ids| == |ids.Keys|;
    var status := if reasons != [] then Unknown else if missed != 0 || |confirmed| != 0 then Fail else Pass;
    a := Accounting(status, |ids|, |covered|, missed, |confirmed|, reasons);
    AnsweredExactly(e);
  }

  lemma AnsweredExactly(e: Evidence)
    ensures (forall key :: key in Expected(e) ==> IsAnswered(e, key)) <==>
      KeysCovered(e) == Expected(e) && KeysAutoConfirmed(e) == {}
  {
    hide IsFirst, IsCovered, IsAutoConfirmed, Expected, Items;
    if KeysCovered(e) == Expected(e) && KeysAutoConfirmed(e) == {} {
      forall key | key in Expected(e) ensures IsAnswered(e, key) {
        assert key in KeysCovered(e) && key !in KeysAutoConfirmed(e);
        var i: nat :| IsFirst(Items(e), key, i) && IsCovered(e, i);
      }
    }
    if forall key :: key in Expected(e) ==> IsAnswered(e, key) {
      forall key | key in Expected(e) ensures key in KeysCovered(e) && key !in KeysAutoConfirmed(e) {
        var i: nat :| IsFirst(Items(e), key, i) && IsCovered(e, i) && !IsAutoConfirmed(e, i);
        if j: nat :| IsFirst(Items(e), key, j) && IsAutoConfirmed(e, j) {
          OneFirst(Items(e), key, i, j);
        }
      }
    }
  }

  /** The index sets of the source, and the target keys that they stand for. */
  method CoveredAndConfirmed(e: Evidence, indexOf: map<Key, nat>) returns (covered: set<Key>, confirmed: set<Key>)
    requires Indexes(e, indexOf)
    ensures covered == KeysCovered(e) && confirmed == KeysAutoConfirmed(e)
  {
    hide Expected;
    var items := Items(e);
    var expected := indexOf.Values;
    var persisted := set i | i in expected && i in e.decisions && e.decisions[i] in DECISIONS;
    var explicitly := set i | i in expected && i < |items| && items[i].Item? && items[i].autoConfirmed;
    var implicitly := if e.converted == "converted" then expected - persisted else {};
    var boundary := if e.boundaryPassed && e.converted == "requires_review"
      then set i | i in expected && i < |items| && items[i].Item? && items[i].blockId.Some?
        && items[i].blockId.value != "" && items[i].blockId.value in e.boundaryIds
      else {};
    covered := set key | key in indexOf && indexOf[key] in persisted + boundary;
    confirmed := set key | key in indexOf && indexOf[key] in explicitly + implicitly;
    forall key ensures (key in covered <==> key in KeysCovered(e)) && (key in confirmed <==> key in KeysAutoConfirmed(e)) {
      if key in indexOf {
        KeyIsIndexed(e, key, indexOf[key]);
        assert indexOf[key] in expected;
      } else {
        NotIndexed(e, key);
      }
    }
  }

  lemma KeyIsIndexed(e: Evidence, key: Key, index: nat)
    requires key in Expected(e) && IsFirst(Items(e), key, index)
    ensures key in KeysCovered(e) <==> IsCovered(e, index)
    ensures key in KeysAutoConfirmed(e) <==> IsAutoConfirmed(e, index)
    ensures index < |Items(e)| && Items(e)[index].Item?
  {
    hide IsCovered, IsAutoConfirmed;
    forall i: nat | IsFirst(Items(e), key, i) ensures i == index {
      OneFirst(Items(e), key, i, index);
    }
  }

  lemma NotIndexed(e: Evidence, key: Key)
    requires !(key in Expected(e) && exists i :: 0 <= i < |Items(e)| && HasKey(Items(e)[i], key))
    ensures key !in KeysCovered(e) && key !in KeysAutoConfirmed(e)
  {
  }

  // ---- The rollup

  datatype Counts = Counts(status: Status, targets: Count, covered: Count, missed: Count, autoConfirmed: Count)

  /** `counts` is None when the case has no high-risk dimension. */
  datatype RiskCase = RiskCase(id: string, counts: Option<Counts>)

  ghost predicate AddsUp(c: Counts) {
    && c.targets.Int? && c.covered.Int? && c.missed.Int? && c.autoConfirmed.Int?
    && 0 <= c.covered.value <= c.targets.value && 0 <= c.missed.value <= c.targets.value
    && 0 <= c.autoConfirmed.value <= c.targets.value && c.covered.value + c.missed.value == c.targets.value
  }

  /** What the rollup takes into account. */
  ghost predicate IsCounted(c: RiskCase) {
    c.counts.Some? && c.counts.value.status != Unknown && AddsUp(c.counts.value)
  }

  ghost function CountsOf(a: Accounting): Counts {
    Counts(a.status, Int(a.targets), Int(a.covered), Int(a.missed), Int(a.autoConfirmed))
  }

  /** Nothing missed, nothing confirmed automatically, in a case that is said to pass. */
  ghost predicate IsClear(c: RiskCase) {
    IsCounted(c) && c.counts.value.status == Pass && c.counts.value.missed.value == 0
      && c.counts.value.autoConfirmed.value == 0
  }

  /** The checks of a case's counts, in order. */
  method CheckCounts(c: RiskCase) returns (counted: bool)
    ensures counted == IsCounted(c)
  {
    if c.counts == None || c.counts.value.status == Unknown {
      return false;
    }
    match c.counts.value {
      case Counts(_, Int(targets), Int(covered), Int(missed), Int(autoConfirmed)) =>
        if targets < 0 || covered < 0 || missed < 0 || autoConfirmed < 0 {
          return false;
        }
        if covered > targets || missed > targets || autoConfirmed > targets {
          return false;
        }
        counted := covered + missed == targets;
      case _ => counted := false;
    }
  }

  datatype Total = Total(targets: int, covered: int, missed: int, autoConfirmed: int)

  ghost function TotalOf(cases: seq<RiskCase>): Total {
    if cases == [] then Total(0, 0, 0, 0)
    else
      var t, last := TotalOf(cases[..|cases| - 1]), cases[|cases| - 1];
      if IsCounted(last) then
        var c := last.counts.value;
        Total(t.targets + c.targets.value, t.covered + c.covered.value, t.missed + c.missed.value,
          t.autoConfirmed + c.autoConfirmed.value)
      else t
  }

  /** The totals keep the identity of the cases. */
  lemma {:induction false} TotalsAddUp(cases: seq<RiskCase>)
    ensures var t := TotalOf(cases);
      t.covered + t.missed == t.targets && 0 <= t.covered && 0 <= t.missed && 0 <= t.autoConfirmed <= t.targets
  {
    if cases != [] {
      TotalsAddUp(cases[..|cases| - 1]);
    }
  }

  ghost predicate AllCounted(cases: seq<RiskCase>) {
    forall i :: 0 <= i < |cases| ==> IsCounted(cases[i])
  }

  ghost predicate AllClear(cases: seq<RiskCase>) {
    forall i :: 0 <= i < |cases| ==> IsClear(cases[i])
  }

  ghost predicate NoneFailed(cases: seq<RiskCase>) {
    forall i :: 0 <= i < |cases| && IsCounted(cases[i]) ==> cases[i].counts.value.status != Fail
  }

  lemma {:induction false} ClearTotals(cases: seq<RiskCase>)
    requires AllCounted(cases)
    ensures AllClear(cases) <==> NoneFailed(cases) && TotalOf(cases).missed == 0 && TotalOf(cases).autoConfirmed == 0
  {
    if cases != [] {
      var init, last := cases[..|cases| - 1], cases[|cases| - 1];
      ClearTotals(init);
      TotalsAddUp(init);
      assert forall i :: 0 <= i < |init| ==> init[i] == cases[i];
      assert cases == init + [last];
    }
  }

  /** The high-risk part of `mvp_metrics_rollup`. */
  method RollUpHighRisk(cases: seq<RiskCase>, unknownIds: seq<string>) returns (status: Status, total: Total)
    ensures total == TotalOf(cases)
    ensures status == Unknown <==> unknownIds != [] || !AllCounted(cases)
    ensures status == Pass <==> unknownIds == [] && AllClear(cases)
  {
    hide IsCounted, IsClear;
    var unknown, failed := unknownIds, [];
    total := Total(0, 0, 0, 0);
    for i := 0 to |cases|
      invariant total == TotalOf(cases[..i])
      invariant unknown == [] <==> unknownIds == [] && AllCounted(cases[..i])
      invariant failed == [] <==> NoneFailed(cases[..i])
    {
      assert cases[..i + 1][..i] == cases[..i];
      OneMore(cases, i);
      var counted := CheckCounts(cases[i]);
      if !counted {
        unknown := unknown + [cases[i].id];
        continue;
      }
      CountedHasCounts(cases[i]);
      var c := cases[i].counts.value;
      if c.status == Fail {
        failed := failed + [cases[i].id];
      }
      total := Total(total.targets + c.targets.value, total.covered + c.covered.value, total.missed + c.missed.value,
        total.autoConfirmed + c.autoConfirmed.value);
    }
    assert cases[..|cases|] == cases;
    status :=
      if unknown != [] then Unknown
      else if failed != [] || total.missed != 0 || total.autoConfirmed != 0 then Fail
      else Pass;
    if AllCounted(cases) {
      ClearTotals(cases);
    } else {
      ClearIsCounted(cases);
    }
  }

  lemma CountedHasCounts(c: RiskCase)
    requires IsCounted(c)
    ensures c.counts.Some? && c.counts.value.targets.Int? && c.counts.value.covered.Int? && c.counts.value.missed.Int?
      && c.counts.value.autoConfirmed.Int?
  {
  }

  lemma ClearIsCounted(cases: seq<RiskCase>)
    ensures AllClear(cases) ==> AllCounted(cases)
  {
  }

  lemma OneMore(cases: seq<RiskCase>, i: nat)
    requires i < |cases|
    ensures AllCounted(cases[..i + 1]) <==> AllCounted(cases[..i]) && IsCounted(cases[i])
    ensures NoneFailed(cases[..i + 1]) <==>
      NoneFailed(cases[..i]) && (IsCounted(cases[i]) ==> cases[i].counts.value.status != Fail)
  {
    hide IsCounted;
    var more, less := cases[..i + 1], cases[..i];
    assert more[i] == cases[i];
    assert forall k :: 0 <= k < i ==> less[k] == more[k];
  }

  /** The rollup of accountings passes exactly when every case passes, and is unknown exactly when
      one of them is: no accounting is turned away for its counts. */
  lemma RollupOfAccountings(accountings: seq<Accounting>, cases: seq<RiskCase>)
    requires |accountings| == |cases|
    requires forall i :: 0 <= i < |cases| ==>
      IsAccounting(accountings[i]) && cases[i].counts == Some(CountsOf(accountings[i]))
    ensures AllClear(cases) <==> forall i :: 0 <= i < |cases| ==> accountings[i].status == Pass
    ensures AllCounted(cases) <==> forall i :: 0 <= i < |cases| ==> accountings[i].status != Unknown
  {
    forall i | 0 <= i < |cases|
      ensures IsClear(cases[i]) <==> accountings[i].status == Pass
      ensures IsCounted(cases[i]) <==> accountings[i].status != Unknown
    {
    }
  }
}
