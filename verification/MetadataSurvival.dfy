/** Which review demands of the v0 blocks of a page survive the merge into the fragments that the
    page has already (core/ir/document_ir_v1.py, `_merge_v0_metadata_into_existing_page_blocks`),
    said in terms of the lists that the merge is given. */
module MetadataSurvival {
  import opened Prelude
  import opened ParserFragments
  import opened MetadataMerge
  import opened MetadataReview
  import opened DocumentIR

  // ---- The filtered sources and the list they come from

  /** Where the fragments with merge metadata stand in the list. */
  ghost function MetadataKeys(inherited: seq<Fragment>): seq<nat> {
    if inherited == [] then []
    else
      var n := |inherited| - 1;
      if HasMetadata(inherited[n]) then MetadataKeys(inherited[..n]) + [n] else MetadataKeys(inherited[..n])
  }

  lemma {:induction false} KeysOfMetadata(inherited: seq<Fragment>)
    ensures |MetadataKeys(inherited)| == |WithMergeMetadata(inherited)|
    ensures forall k :: 0 <= k < |MetadataKeys(inherited)| ==> IsKeyAt(inherited, k)
    ensures forall q: nat :: q in MetadataKeys(inherited) <==> q < |inherited| && HasMetadata(inherited[q])
    ensures forall k, l :: 0 <= k < l < |MetadataKeys(inherited)| ==>
      MetadataKeys(inherited)[k] < MetadataKeys(inherited)[l]
  {
    hide HasMetadata;
    if inherited != [] {
      var n := |inherited| - 1;
      KeysOfMetadata(inherited[..n]);
      var keys := MetadataKeys(inherited[..n]);
      forall k | 0 <= k < |keys| ensures IsKeyAt(inherited, k) && keys[k] < n {
        assert IsKeyAt(inherited[..n], k) && keys[k] in keys;
      }
    }
  }

  /** The `k`th fragment that passes the filter is the one at the `k`th key. */
  ghost predicate IsKeyAt(inherited: seq<Fragment>, k: nat) {
    && k < |MetadataKeys(inherited)| && k < |WithMergeMetadata(inherited)|
    && MetadataKeys(inherited)[k] < |inherited|
    && WithMergeMetadata(inherited)[k] == inherited[MetadataKeys(inherited)[k]]
  }

  // ---- What a page merge does, without its ranks

  /** No inherited fragment goes to two targets, only fitting ones with metadata are taken, and a
      target that takes none fits none that is still there. */
  ghost predicate IsServed(ctx: Context, values: seq<Value>, inherited: seq<Fragment>, taken: seq<Option<nat>>) {
    && |taken| == |values|
    && (forall i :: 0 <= i < |taken| && taken[i].Some? ==> Takes(ctx, values[i], inherited, taken[i].value))
    && (forall i, k :: 0 <= i < k < |taken| && taken[i].Some? ==> taken[i] != taken[k])
    && (forall i: nat, q: nat :: i < |taken| && taken[i].None? && Takes(ctx, values[i], inherited, q) ==>
          IsTakenBefore(taken, i, q))
  }

  ghost predicate IsTakenBefore(taken: seq<Option<nat>>, i: nat, q: nat) {
    exists k :: 0 <= k < i && k < |taken| && taken[k] == Some(q)
  }

  /** Fragment `q` passes the filter and fits the target. */
  ghost predicate Takes(ctx: Context, value: Value, inherited: seq<Fragment>, q: nat) {
    q < |inherited| && HasMetadata(inherited[q]) && Fits(ctx, value, inherited[q])
  }

  ghost function Served(value: Value, inherited: seq<Fragment>, taken: Option<nat>): Value {
    if taken.Some? && taken.value < |inherited| then WithMetadata(value, inherited[taken.value]) else value
  }

  ghost predicate IsServing(values: seq<Value>, inherited: seq<Fragment>, taken: seq<Option<nat>>, merged: seq<Value>)
    requires |merged| == |values|
  {
    |taken| == |values| && forall i :: 0 <= i < |values| ==> merged[i] == Served(values[i], inherited, taken[i])
  }

  ghost function Unfiltered(inherited: seq<Fragment>, pick: Option<nat>): Option<nat> {
    if pick.Some? && pick.value < |MetadataKeys(inherited)| then Some(MetadataKeys(inherited)[pick.value]) else None
  }

  lemma {:induction false} UnfilteredTaken(inherited: seq<Fragment>, picks: seq<Option<nat>>, i: nat)
    requires InRange(picks, |WithMergeMetadata(inherited)|) && i < |picks|
    ensures picks[i].Some? <==> Unfiltered(inherited, picks[i]).Some?
    ensures picks[i].Some? ==> IsKeyAt(inherited, picks[i].value)
  {
    KeysOfMetadata(inherited);
  }

  /** The merge over the filtered fragments, told over the list before the filter. */
  lemma MergeIsServed(ctx: Context, values: seq<Value>, inherited: seq<Fragment>, picks: seq<Option<nat>>,
      merged: seq<Value>)
    returns (taken: seq<Option<nat>>)
    requires IsPageMerge(ctx, values, WithMergeMetadata(inherited), picks, merged)
    ensures IsServed(ctx, values, inherited, taken)
    ensures |merged| == |values| && IsServing(values, inherited, taken, merged)
  {
    hide Fits, HasMetadata, Assigned, WithMetadata;
    KeysOfMetadata(inherited);
    var sources, keys := WithMergeMetadata(inherited), MetadataKeys(inherited);
    taken := seq(|picks|, i requires 0 <= i < |picks| => Unfiltered(inherited, picks[i]));
    PicksInRange(ctx, values, sources, picks);
    forall i: nat | i < |picks|
      ensures taken[i].Some? <==> picks[i].Some?
      ensures picks[i].Some? ==>
        IsKeyAt(inherited, picks[i].value) && taken[i].value == keys[picks[i].value]
        && Takes(ctx, values[i], inherited, taken[i].value)
      ensures merged[i] == Served(values[i], inherited, taken[i])
    {
      UnfilteredTaken(inherited, picks, i);
      AssignedAt(ctx, values, sources, picks, i);
      if picks[i].Some? {
        assert keys[picks[i].value] in keys;
      }
    }
    forall i, k | 0 <= i < k < |taken| && taken[i].Some? ensures taken[i] != taken[k] {
      TakenOnce(ctx, values, sources, picks, i, k);
      if taken[k].Some? {
        DistinctKeys(keys, picks[i].value, picks[k].value);
      }
    }
    forall i: nat, q: nat | i < |taken| && taken[i].None? && Takes(ctx, values[i], inherited, q)
      ensures IsTakenBefore(taken, i, q)
    {
      var k := PassedUp(ctx, values, inherited, picks, i, q);
      assert taken[k] == Some(q);
    }
  }

  /** A target that takes nothing finds a fragment that fits it taken before. */
  lemma PassedUp(ctx: Context, values: seq<Value>, inherited: seq<Fragment>, picks: seq<Option<nat>>, i: nat, q: nat)
    returns (k: nat)
    requires Assigned(ctx, values, WithMergeMetadata(inherited), picks)
    requires i < |values| && |picks| == |values| && picks[i].None? && Takes(ctx, values[i], inherited, q)
    ensures k < i && Unfiltered(inherited, picks[k]) == Some(q)
  {
    hide Fits, HasMetadata, Assigned;
    KeysOfMetadata(inherited);
    var keys := MetadataKeys(inherited);
    assert q in keys;
    var x: nat :| x < |keys| && keys[x] == q;
    assert IsKeyAt(inherited, x);
    AssignedAt(ctx, values, WithMergeMetadata(inherited), picks, i);
    assert !Free(picks[..i], x);
    k :| 0 <= k < i && picks[..i][k] == Some(x);
  }

  lemma DistinctKeys(keys: seq<nat>, k: nat, l: nat)
    requires forall i, j :: 0 <= i < j < |keys| ==> keys[i] < keys[j]
    requires k < |keys| && l < |keys| && k != l
    ensures keys[k] != keys[l]
  {
  }

  // ---- Lost and kept demands

  /** Some fragment that fits `source` shows all its demands. */
  ghost predicate Arrives(ctx: Context, values: seq<Value>, merged: seq<Value>, source: Fragment)
    requires |merged| == |values|
  {
    exists i :: 0 <= i < |values| && ShowsAt(ctx, values[i], merged[i], source)
  }

  ghost predicate ShowsAt(ctx: Context, value: Value, shown: Value, source: Fragment) {
    Fits(ctx, value, source) && Carries(Data(shown), source)
  }

  /** Every inherited fragment that demands review arrives. */
  ghost predicate NothingLost(ctx: Context, values: seq<Value>, merged: seq<Value>, inherited: seq<Fragment>)
    requires |merged| == |values|
  {
    forall q :: 0 <= q < |inherited| && DemandsReview(inherited[q]) ==> Arrives(ctx, values, merged, inherited[q])
  }

  /** The first target that `source` fits is a dictionary. */
  ghost predicate MeetsDictionary(ctx: Context, values: seq<Value>, source: Fragment) {
    exists i :: IsFirstFit(ctx, values, source, i) && values[i].Dict?
  }

  ghost predicate IsFirstFit(ctx: Context, values: seq<Value>, source: Fragment, i: int) {
    0 <= i < |values| && Fits(ctx, values[i], source) && forall k :: 0 <= k < i ==> !Fits(ctx, values[k], source)
  }

  /** What a caller can check: the demands are shown already, or the fragment passes the filter and
      the first target it fits is a dictionary. */
  ghost predicate WillArrive(ctx: Context, values: seq<Value>, source: Fragment) {
    Arrives(ctx, values, values, source) || (HasMetadata(source) && MeetsDictionary(ctx, values, source))
  }

  /** No other fragment with metadata fits a target that fragment `q` fits. */
  ghost predicate IsUnrivalled(ctx: Context, values: seq<Value>, inherited: seq<Fragment>, q: nat)
    requires q < |inherited|
  {
    forall i, p :: 0 <= i < |values| && Fits(ctx, values[i], inherited[q]) && Takes(ctx, values[i], inherited, p) ==>
      p == q
  }

  lemma ServedKeeps(value: Value, inherited: seq<Fragment>, taken: Option<nat>, source: Fragment)
    ensures Carries(Data(value), source) ==> Carries(Data(Served(value, inherited, taken)), source)
    ensures taken.Some? && taken.value < |inherited| && value.Dict? ==>
      Carries(Data(Served(value, inherited, taken)), inherited[taken.value])
    ensures !value.Dict? || taken.None? ==> Served(value, inherited, taken) == value
  {
    hide Carries;
    if taken.Some? && taken.value < |inherited| {
      DemandsReachDictionaries(value, inherited[taken.value]);
      TargetKeepsItsOwn(value, inherited[taken.value]);
      if Carries(Data(value), source) {
        CarriesTransitive(Data(Served(value, inherited, taken)), Data(value), source);
      }
    }
  }

  /** Without rivals a fragment arrives exactly when it will by the look of the lists. */
  lemma ArrivesExactly(ctx: Context, values: seq<Value>, inherited: seq<Fragment>, picks: seq<Option<nat>>,
      merged: seq<Value>, q: nat)
    requires IsPageMerge(ctx, values, WithMergeMetadata(inherited), picks, merged) && |merged| == |values|
    requires q < |inherited| && IsUnrivalled(ctx, values, inherited, q)
    ensures Arrives(ctx, values, merged, inherited[q]) <==> WillArrive(ctx, values, inherited[q])
  {
    hide Fits, HasMetadata, Carries, IsPageMerge, Served;
    var taken := MergeIsServed(ctx, values, inherited, picks, merged);
    var source := inherited[q];
    forall i | 0 <= i < |values|
      ensures ShowsAt(ctx, values[i], values[i], source) ==> ShowsAt(ctx, values[i], merged[i], source) {
      ServedKeeps(values[i], inherited, taken[i], source);
    }
    if Arrives(ctx, values, merged, source) {
      var i :| 0 <= i < |values| && ShowsAt(ctx, values[i], merged[i], source);
      ServedKeeps(values[i], inherited, taken[i], source);
      if taken[i].Some? && values[i].Dict? {
        OnlyTaker(ctx, values, inherited, taken, q, i);
      }
    }
    if HasMetadata(source) && MeetsDictionary(ctx, values, source) {
      var i :| IsFirstFit(ctx, values, source, i) && values[i].Dict?;
      FirstFitTakes(ctx, values, inherited, taken, q, i);
      ServedKeeps(values[i], inherited, taken[i], source);
      assert ShowsAt(ctx, values[i], merged[i], source);
    }
  }

  /** The target that takes an unrivalled fragment is the first that it fits. */
  lemma OnlyTaker(ctx: Context, values: seq<Value>, inherited: seq<Fragment>, taken: seq<Option<nat>>, q: nat, i: nat)
    requires IsServed(ctx, values, inherited, taken) && q < |inherited| && IsUnrivalled(ctx, values, inherited, q)
    requires i < |values| && Fits(ctx, values[i], inherited[q]) && taken[i].Some?
    ensures HasMetadata(inherited[q]) && IsFirstFit(ctx, values, inherited[q], i)
  {
    hide Fits, HasMetadata;
    assert Takes(ctx, values[i], inherited, taken[i].value);
    assert taken[i] == Some(q);
    forall k | 0 <= k < i ensures !Fits(ctx, values[k], inherited[q]) {
      assert Fits(ctx, values[k], inherited[q]) ==> Takes(ctx, values[k], inherited, q);
      assert taken[k].Some? ==> Takes(ctx, values[k], inherited, taken[k].value);
    }
  }

  lemma FirstFitTakes(ctx: Context, values: seq<Value>, inherited: seq<Fragment>, taken: seq<Option<nat>>, q: nat,
      i: int)
    requires IsServed(ctx, values, inherited, taken) && q < |inherited| && IsUnrivalled(ctx, values, inherited, q)
    requires HasMetadata(inherited[q]) && IsFirstFit(ctx, values, inherited[q], i)
    ensures taken[i] == Some(q)
  {
    hide Fits, HasMetadata;
    assert Takes(ctx, values[i], inherited, q);
    if taken[i].Some? {
      assert Takes(ctx, values[i], inherited, taken[i].value);
    }
  }

  /** Without rivals nothing is lost exactly when every fragment that demands review will arrive by
      the look of the lists. */
  lemma NothingLostExactly(ctx: Context, values: seq<Value>, inherited: seq<Fragment>, picks: seq<Option<nat>>,
      merged: seq<Value>)
    requires IsPageMerge(ctx, values, WithMergeMetadata(inherited), picks, merged) && |merged| == |values|
    requires forall q: nat :: q < |inherited| && DemandsReview(inherited[q]) ==> IsUnrivalled(ctx, values, inherited, q)
    ensures NothingLost(ctx, values, merged, inherited) <==>
      forall q :: 0 <= q < |inherited| && DemandsReview(inherited[q]) ==> WillArrive(ctx, values, inherited[q])
  {
    hide IsPageMerge, IsUnrivalled, Arrives, WillArrive, DemandsReview;
    forall q: nat | q < |inherited| && DemandsReview(inherited[q])
      ensures Arrives(ctx, values, merged, inherited[q]) <==> WillArrive(ctx, values, inherited[q])
    {
      ArrivesExactly(ctx, values, inherited, picks, merged, q);
    }
  }

  /** A single inherited fragment has no rivals. */
  lemma OneSourceArrivesExactly(ctx: Context, values: seq<Value>, source: Fragment, picks: seq<Option<nat>>,
      merged: seq<Value>)
    requires IsPageMerge(ctx, values, WithMergeMetadata([source]), picks, merged) && |merged| == |values|
    ensures Arrives(ctx, values, merged, source) <==> WillArrive(ctx, values, source)
  {
    ArrivesExactly(ctx, values, [source], picks, merged, 0);
  }

  /** With rivals or without: what arrives was shown already or fits a dictionary. */
  lemma ArrivesOnlyAtDictionaries(ctx: Context, values: seq<Value>, inherited: seq<Fragment>, picks: seq<Option<nat>>,
      merged: seq<Value>, source: Fragment)
    requires IsPageMerge(ctx, values, WithMergeMetadata(inherited), picks, merged) && |merged| == |values|
    requires Arrives(ctx, values, merged, source)
    ensures Arrives(ctx, values, values, source)
      || exists i, p :: 0 <= i < |values| && values[i].Dict? && Fits(ctx, values[i], source)
                        && Takes(ctx, values[i], inherited, p)
  {
    hide Fits, HasMetadata, Carries, IsPageMerge, Served;
    var taken := MergeIsServed(ctx, values, inherited, picks, merged);
    var i :| 0 <= i < |values| && ShowsAt(ctx, values[i], merged[i], source);
    ServedKeeps(values[i], inherited, taken[i], source);
    if taken[i].None? || !values[i].Dict? {
      assert ShowsAt(ctx, values[i], values[i], source);
    } else {
      assert Takes(ctx, values[i], inherited, taken[i].value);
    }
  }

  // ---- Rivals

  /** Two fragments fit a common target. */
  ghost predicate Compete(ctx: Context, values: seq<Value>, inherited: seq<Fragment>, p: nat, q: nat) {
    exists i :: 0 <= i < |values| && Takes(ctx, values[i], inherited, p) && Takes(ctx, values[i], inherited, q)
  }

  /** The fragments with metadata that compete with `q`, itself included. */
  ghost function Rivals(ctx: Context, values: seq<Value>, inherited: seq<Fragment>, q: nat): set<nat> {
    set p: nat | p < |inherited| && HasMetadata(inherited[p]) && (p == q || Compete(ctx, values, inherited, p, q))
  }

  /** The targets that `q` fits. */
  ghost function Targets(ctx: Context, values: seq<Value>, inherited: seq<Fragment>, q: nat): set<nat> {
    set i: nat | i < |values| && Takes(ctx, values[i], inherited, q)
  }

  lemma {:induction false} TakersAreFew(taken: seq<Option<nat>>, targets: set<nat>, sources: set<nat>)
    requires forall i, k :: 0 <= i < k < |taken| && taken[i].Some? ==> taken[i] != taken[k]
    requires forall i :: i in targets ==> i < |taken| && taken[i].Some? && taken[i].value in sources
    ensures |targets| <= |sources|
  {
    if targets != {} {
      var i :| i in targets;
      TakersAreFew(taken, targets - {i}, sources - {taken[i].value});
    }
  }

  lemma {:induction false} TakenAreFew(taken: seq<Option<nat>>, targets: set<nat>, sources: set<nat>)
    requires forall q :: q in sources ==> IsTakenIn(taken, targets, q)
    ensures |sources| <= |targets|
  {
    if sources != {} {
      var q :| q in sources;
      var i :| i in targets && i < |taken| && taken[i] == Some(q);
      forall p | p in sources - {q} ensures IsTakenIn(taken, targets - {i}, p) {
        var k :| k in targets && k < |taken| && taken[k] == Some(p);
      }
      TakenAreFew(taken, targets - {i}, sources - {q});
    }
  }

  ghost predicate IsTakenIn(taken: seq<Option<nat>>, targets: set<nat>, q: nat) {
    exists i :: i in targets && i < |taken| && taken[i] == Some(q)
  }

  /** A fragment that fits at least as many targets as it has rivals is taken. */
  lemma EnoughTargets(ctx: Context, values: seq<Value>, inherited: seq<Fragment>, taken: seq<Option<nat>>, q: nat)
    requires IsServed(ctx, values, inherited, taken) && q < |inherited| && HasMetadata(inherited[q])
    requires |Rivals(ctx, values, inherited, q)| <= |Targets(ctx, values, inherited, q)|
    ensures Some(q) in taken
  {
    hide Fits, HasMetadata;
    var rivals, targets := Rivals(ctx, values, inherited, q), Targets(ctx, values, inherited, q);
    if Some(q) !in taken {
      forall i | i in targets ensures taken[i].Some? && taken[i].value in rivals - {q} {
        assert !IsTakenBefore(taken, i, q);
        assert Takes(ctx, values[i], inherited, taken[i].value);
        assert Compete(ctx, values, inherited, taken[i].value, q);
      }
      TakersAreFew(taken, targets, rivals - {q});
    }
  }

  /** Fragments that share one target share all. */
  ghost predicate AreInterchangeable(ctx: Context, values: seq<Value>, inherited: seq<Fragment>) {
    forall p: nat, q: nat, k ::
      0 <= k < |values| && Compete(ctx, values, inherited, p, q) && Takes(ctx, values[k], inherited, p) ==>
      Takes(ctx, values[k], inherited, q)
  }

  ghost predicate HasEnoughTargets(ctx: Context, values: seq<Value>, inherited: seq<Fragment>, q: nat) {
    |Rivals(ctx, values, inherited, q)| <= |Targets(ctx, values, inherited, q)|
  }

  ghost predicate IsTaken(inherited: seq<Fragment>, taken: seq<Option<nat>>, q: nat) {
    q < |inherited| && HasMetadata(inherited[q]) ==> Some(q) in taken
  }

  /** Among interchangeable fragments all are taken exactly when each fits as many targets as it has
      rivals. */
  lemma AllTakenExactly(ctx: Context, values: seq<Value>, inherited: seq<Fragment>, taken: seq<Option<nat>>)
    requires IsServed(ctx, values, inherited, taken) && AreInterchangeable(ctx, values, inherited)
    ensures (forall q :: IsTaken(inherited, taken, q)) <==>
      forall q: nat :: q < |inherited| && HasMetadata(inherited[q]) ==> HasEnoughTargets(ctx, values, inherited, q)
  {
    hide Fits, HasMetadata;
    if forall q :: IsTaken(inherited, taken, q) {
      forall q: nat | q < |inherited| && HasMetadata(inherited[q]) ensures HasEnoughTargets(ctx, values, inherited, q) {
        forall p | p in Rivals(ctx, values, inherited, q)
          ensures IsTakenIn(taken, Targets(ctx, values, inherited, q), p) {
          assert IsTaken(inherited, taken, p);
          var i :| 0 <= i < |taken| && taken[i] == Some(p);
          assert Takes(ctx, values[i], inherited, p);
        }
        TakenAreFew(taken, Targets(ctx, values, inherited, q), Rivals(ctx, values, inherited, q));
      }
    }
    if forall q: nat :: q < |inherited| && HasMetadata(inherited[q]) ==> HasEnoughTargets(ctx, values, inherited, q) {
      forall q: nat ensures IsTaken(inherited, taken, q) {
        if q < |inherited| && HasMetadata(inherited[q]) {
          EnoughTargets(ctx, values, inherited, taken, q);
        }
      }
    }
  }

  /** Every inherited fragment with metadata is merged into a target of its own. */
  ghost predicate AllMerged(ctx: Context, values: seq<Value>, inherited: seq<Fragment>, merged: seq<Value>)
    requires |merged| == |values|
  {
    exists taken ::
      IsServed(ctx, values, inherited, taken) && IsServing(values, inherited, taken, merged)
      && forall q :: IsTaken(inherited, taken, q)
  }

  /** Lists with rivals: if fragments that share a target share all, each is merged into a target of
      its own exactly when there are as many targets as rivals. */
  lemma AllMergedExactly(ctx: Context, values: seq<Value>, inherited: seq<Fragment>, picks: seq<Option<nat>>,
      merged: seq<Value>)
    requires IsPageMerge(ctx, values, WithMergeMetadata(inherited), picks, merged) && |merged| == |values|
    requires AreInterchangeable(ctx, values, inherited)
    ensures AllMerged(ctx, values, inherited, merged) <==>
      forall q: nat :: q < |inherited| && HasMetadata(inherited[q]) ==> HasEnoughTargets(ctx, values, inherited, q)
  {
    hide IsPageMerge, IsServed, AreInterchangeable, HasEnoughTargets, Served, IsTaken;
    var taken := MergeIsServed(ctx, values, inherited, picks, merged);
    AllTakenExactly(ctx, values, inherited, taken);
    if AllMerged(ctx, values, inherited, merged) {
      var other :|
        IsServed(ctx, values, inherited, other) && IsServing(values, inherited, other, merged)
        && forall q :: IsTaken(inherited, other, q);
      AllTakenExactly(ctx, values, inherited, other);
    }
  }

  /** With rivals of any kind: a fragment that passes the filter, fits as many targets as it has
      rivals, and fits dictionaries only, arrives. */
  lemma ArrivesWithEnoughTargets(ctx: Context, values: seq<Value>, inherited: seq<Fragment>, picks: seq<Option<nat>>,
      merged: seq<Value>, q: nat)
    requires IsPageMerge(ctx, values, WithMergeMetadata(inherited), picks, merged) && |merged| == |values|
    requires q < |inherited| && HasMetadata(inherited[q]) && HasEnoughTargets(ctx, values, inherited, q)
    requires forall i :: 0 <= i < |values| && Fits(ctx, values[i], inherited[q]) ==> values[i].Dict?
    ensures Arrives(ctx, values, merged, inherited[q])
  {
    hide Fits, HasMetadata, Carries, IsPageMerge, Served;
    var taken := MergeIsServed(ctx, values, inherited, picks, merged);
    EnoughTargets(ctx, values, inherited, taken, q);
    var i :| 0 <= i < |taken| && taken[i] == Some(q);
    assert Takes(ctx, values[i], inherited, q);
    ServedKeeps(values[i], inherited, taken[i], inherited[q]);
    assert ShowsAt(ctx, values[i], merged[i], inherited[q]);
  }

  // ---- Where the merge falls short

  const A_BOX := Some(RawBox(Some(Finite(0.0)), Some(Finite(0.0)), Some(Finite(10.0)), Some(Finite(10.0)), "pt", "top-left"))

  /** A fragment of the page that is clean by itself. */
  const TOTAL := EMPTY.(kind := Some("paragraph"), text := "Total", bbox := A_BOX, confidence := Some(Finite(0.9)))

  /** A v0 block with the same text, flagged, without a confidence. */
  const FLAGGED := EMPTY.(kind := Some("paragraph"), text := "Total", pageNumber := Whole(1), missingConfidence := true,
    requiresReview := true)

  /** A v0 block with the same text that has no confidence and nothing else to report. */
  const UNRATED := EMPTY.(kind := Some("paragraph"), text := "Total", pageNumber := Whole(1), missingConfidence := true)

  lemma TotalIsClean()
    ensures IsClean(TOTAL) && BlockConfidence(TOTAL) == 0.9
  {
    assert 'T' in "Total";
  }

  lemma SameTextFits(ctx: Context, source: Fragment)
    requires source.kind == Some("paragraph") && source.text == "Total" && source.bbox == None
    ensures Fits(ctx, Dict(TOTAL), source) && Fits(ctx, Converted(TOTAL), source)
  {
    ParagraphIsType();
  }

  /** One target and one inherited fragment. */
  lemma OneOnOne(ctx: Context, value: Value, source: Fragment, picks: seq<Option<nat>>, merged: seq<Value>)
    requires IsPageMerge(ctx, [value], WithMergeMetadata([source]), picks, merged)
    ensures merged == [if HasMetadata(source) && Fits(ctx, value, source) then WithMetadata(value, source) else value]
    ensures NothingLost(ctx, [value], merged, [source]) <==>
      !DemandsReview(source) || ShowsAt(ctx, value, merged[0], source)
  {
    hide HasMetadata, Fits, WithMetadata, DemandsReview, Carries;
    assert [source][..0] == [];
    assert WithMergeMetadata([source]) == if HasMetadata(source) then [source] else [];
    AssignedAt(ctx, [value], WithMergeMetadata([source]), picks, 0);
    assert |merged| == 1;
    if ShowsAt(ctx, value, merged[0], source) {
      assert ShowsAt(ctx, [value][0], merged[0], source);
    }
  }

  lemma Demands()
    ensures HasMetadata(FLAGGED) && DemandsReview(FLAGGED) && !Carries(TOTAL, FLAGGED)
    ensures HasMetadata(FLAGGED.(text := "Sum")) && DemandsReview(FLAGGED.(text := "Sum"))
    ensures !HasMetadata(UNRATED) && DemandsReview(UNRATED) && !Carries(TOTAL, UNRATED)
  {
  }

  /** An object takes the flagged block, and the block built from it is clean. */
  lemma AnObjectLosesTheFlag(ctx: Context, picks: seq<Option<nat>>, merged: seq<Value>)
    requires IsPageMerge(ctx, [Converted(TOTAL)], WithMergeMetadata([FLAGGED]), picks, merged)
    ensures HasMetadata(FLAGGED) && Fits(ctx, Converted(TOTAL), FLAGGED)
    ensures merged == [Converted(TOTAL)] && IsClean(Data(merged[0]))
    ensures !NothingLost(ctx, [Converted(TOTAL)], merged, [FLAGGED])
  {
    hide HasMetadata, Fits, DemandsReview, Carries, IsClean, IsPageMerge, BlockConfidence, NothingLost;
    Demands();
    SameTextFits(ctx, FLAGGED);
    TotalIsClean();
    OneOnOne(ctx, Converted(TOTAL), FLAGGED, picks, merged);
  }

  lemma OtherTextDoesNotFit(ctx: Context)
    ensures !Fits(ctx, Dict(TOTAL), FLAGGED.(text := "Sum"))
  {
    hide ExtractorName, ExtractorOr, KeyOf, TypesAgree;
    assert "Sum"[0] != "Total"[0];
  }

  /** A flagged block whose text no fragment has is dropped, and the page stays clean. */
  lemma AnUnmatchedFlagIsDropped(ctx: Context, picks: seq<Option<nat>>, merged: seq<Value>)
    requires IsPageMerge(ctx, [Dict(TOTAL)], WithMergeMetadata([FLAGGED.(text := "Sum")]), picks, merged)
    ensures merged == [Dict(TOTAL)] && IsClean(Data(merged[0]))
    ensures !NothingLost(ctx, [Dict(TOTAL)], merged, [FLAGGED.(text := "Sum")])
  {
    hide HasMetadata, Fits, DemandsReview, Carries, IsClean, IsPageMerge, BlockConfidence, NothingLost;
    Demands();
    OtherTextDoesNotFit(ctx);
    TotalIsClean();
    OneOnOne(ctx, Dict(TOTAL), FLAGGED.(text := "Sum"), picks, merged);
  }

  /** A block that only lacks a confidence is filtered out before the merge, although it demands
      review and a dictionary fits it: the page stays clean. */
  lemma AMissingConfidenceIsDropped(ctx: Context, picks: seq<Option<nat>>, merged: seq<Value>)
    requires IsPageMerge(ctx, [Dict(TOTAL)], WithMergeMetadata([UNRATED]), picks, merged)
    ensures DemandsReview(UNRATED) && !HasMetadata(UNRATED) && Fits(ctx, Dict(TOTAL), UNRATED)
    ensures merged == [Dict(TOTAL)] && IsClean(Data(merged[0]))
    ensures !NothingLost(ctx, [Dict(TOTAL)], merged, [UNRATED])
  {
    hide HasMetadata, Fits, DemandsReview, Carries, IsClean, IsPageMerge, BlockConfidence, NothingLost;
    Demands();
    SameTextFits(ctx, UNRATED);
    TotalIsClean();
    OneOnOne(ctx, Dict(TOTAL), UNRATED, picks, merged);
  }

  /** A v0 block of the same text from an engine, with a confidence. */
  const RATED := EMPTY.(kind := Some("paragraph"), text := "Total", pageNumber := Whole(1), engine := Some("tesseract"),
                        confidence := Some(Finite(95.0)), requiresReview := true)

  lemma Rescaled()
    ensures HasMetadata(RATED) && BlockConfidence(MergedFragment(TOTAL, RATED)) == 0.009
  {
    hide MergedExtractor, MergedKind, Dedupe, Warnings;
    assert |"tesseract"| == 9;
    assert 'T' in "Total";
  }

  /** A confidence of 0.9 becomes one of 0.009: the fragment takes the engine of the block. */
  lemma AnEngineRescales(ctx: Context, picks: seq<Option<nat>>, merged: seq<Value>)
    requires IsPageMerge(ctx, [Dict(TOTAL)], WithMergeMetadata([RATED]), picks, merged)
    ensures HasMetadata(RATED) && Fits(ctx, Dict(TOTAL), RATED) && merged == [Dict(MergedFragment(TOTAL, RATED))]
    ensures BlockConfidence(TOTAL) == 0.9 && BlockConfidence(Data(merged[0])) == 0.009
  {
    hide HasMetadata, Fits, IsClean, IsPageMerge, BlockConfidence, NothingLost, MergedFragment;
    Rescaled();
    SameTextFits(ctx, RATED);
    TotalIsClean();
    OneOnOne(ctx, Dict(TOTAL), RATED, picks, merged);
  }
}
