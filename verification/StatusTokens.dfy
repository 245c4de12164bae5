/** Where the tokens come from that the status analyser takes to be configured: the last call or
    assignment that stored them, if nothing has dropped them since (scripts/evaluate_dataset.py). */
module StatusTokens {
  import opened Prelude
  import opened StatusProgram
  import opened StatusHistory

  // ---- The steps of a statement that concern `server.local_auth_tokens`

  /** A statement's calls come first, then its targets, then what it does to the stored tokens. */
  ghost function Steps(st: Statement): nat {
    |st.calls| + |Targets(st)| + 1
  }

  /** Step `k` stores `tokens`: by `setattr`, or by an assignment to the attribute. */
  ghost predicate Stores(st: Statement, k: nat, tokens: set<string>) {
    || (k < |st.calls| && st.calls[k] == ConfiguresTokens(tokens))
    || (&& st.kind.Assign? && |st.calls| <= k < |st.calls| + |st.kind.targets|
        && st.kind.targets[k - |st.calls|] == One(Some(SERVER_TOKENS)) && st.kind.configured == tokens)
  }

  /** Step `k` drops the tokens: by `delattr`, by deleting the attribute, by binding or deleting the
      name `server`, or by changing the stored tokens in place. */
  ghost predicate Forgets(st: Statement, k: nat) {
    || (k < |st.calls| && st.calls[k] == DropsTokens)
    || (&& |st.calls| <= k < |st.calls| + |Targets(st)|
        && var t := Targets(st)[k - |st.calls|];
           Mentions(t, NameKey("server"))
             || (st.kind.Delete? && t == One(Some(AttrKey(NameKey("server"), "local_auth_tokens")))))
    || (k == |st.calls| + |Targets(st)| && st.mutatesTokens)
  }

  ghost predicate Affects(st: Statement, k: nat) {
    Forgets(st, k) || exists tokens :: Stores(st, k, tokens)
  }

  /** Step `e` of statement `s` comes before step `k` of statement `i`. */
  ghost predicate Before(s: nat, e: nat, i: nat, k: nat) {
    s < i || (s == i && e < k)
  }

  /** Step `e` of statement `s` is the last before step `k` of statement `i` that has an effect. */
  ghost predicate IsLastEffect(p: Program, s: nat, e: nat, i: nat, k: nat) {
    && s < |p.body| && e < Steps(p.body[s]) && Before(s, e, i, k) && Affects(p.body[s], e)
    && NoEffectSince(p, s, e + 1, i, k)
  }

  /** No step from step `e` of statement `s` up to step `k` of statement `i` has an effect. */
  ghost predicate NoEffectSince(p: Program, s: nat, e: nat, i: nat, k: nat) {
    forall t: nat, f: nat ::
      t < |p.body| && f < Steps(p.body[t]) && !Before(t, f, s, e) && Before(t, f, i, k) ==> !Affects(p.body[t], f)
  }

  /** What has set the tokens: nothing so far, or a step of a statement. */
  datatype Origin = Never | Step(statement: nat, step: nat)

  /** Before step `k` of statement `i` the tokens are `tokens`, because of `origin`. */
  ghost predicate TokensAre(p: Program, i: nat, k: nat, origin: Origin, tokens: set<string>) {
    match origin
    case Never => tokens == {} && NoEffectSince(p, 0, 0, i, k)
    case Step(s, e) =>
      && IsLastEffect(p, s, e, i, k)
      && (Stores(p.body[s], e, tokens) || (Forgets(p.body[s], e) && tokens == {}))
  }

  /** The tokens of the environment are those that the last statement to change them has left. */
  ghost predicate EnvironmentIs(p: Program, i: nat, setter: Option<nat>, tokens: set<string>)
    requires i <= |p.body|
  {
    match setter
    case None => tokens == {} && forall t :: 0 <= t < i ==> p.body[t].env == None
    case Some(s) => s < i && p.body[s].env == Some(tokens) && forall t :: s < t < i ==> p.body[t].env == None
  }

  // ---- The record agrees

  /** What the walk has on record before step `k` of statement `i`. */
  ghost function Recorded(p: Program, i: nat, k: nat): set<string>
    requires i < |p.body| && k <= Steps(p.body[i])
  {
    var st := p.body[i];
    if k <= |st.calls| then DirectAfterCalls(st.calls[..k], DirectAt(p, i))
    else if k < Steps(st) then
      DirectAfterTargets(Targets(st)[..k - |st.calls|], Stored(st), DirectAfterCalls(st.calls, DirectAt(p, i)))
    else DirectAt(p, i + 1)
  }

  ghost function Stored(st: Statement): set<string> {
    if st.kind.Assign? then st.kind.configured else {}
  }

  lemma RecordedFirst(p: Program, i: nat)
    requires i < |p.body|
    ensures Recorded(p, i, 0) == DirectAt(p, i)
  {
  }

  /** Before the last step of a statement its calls and targets are dealt with. */
  lemma RecordedWithin(p: Program, i: nat)
    requires i < |p.body|
    ensures Recorded(p, i, Steps(p.body[i]) - 1) == DirectWithin(p.body[i], DirectAt(p, i))
  {
    var st := p.body[i];
    assert Targets(st)[..|Targets(st)|] == Targets(st) && st.calls[..|st.calls|] == st.calls;
  }

  lemma CallStep(p: Program, i: nat, k: nat)
    requires i < |p.body| && k < |p.body[i].calls|
    ensures Recorded(p, i, k + 1) ==
      match p.body[i].calls[k] { case ConfiguresTokens(tokens) => tokens case DropsTokens => {} case _ => Recorded(p, i, k) }
  {
    var calls := p.body[i].calls;
    assert calls[..k + 1][..k] == calls[..k];
  }

  lemma TargetStep(p: Program, i: nat, k: nat)
    requires i < |p.body| && |p.body[i].calls| <= k < Steps(p.body[i]) - 1
    ensures Recorded(p, i, k + 1) ==
      DirectAfterTarget(Targets(p.body[i])[k - |p.body[i].calls|], Stored(p.body[i]), Recorded(p, i, k))
  {
    hide DirectAfterTarget;
    var st := p.body[i];
    var m := k - |st.calls|;
    assert Targets(st)[..m + 1][..m] == Targets(st)[..m];
    assert st.calls[..|st.calls|] == st.calls;
    assert Targets(st)[..0] == [];
  }

  lemma LastStep(p: Program, i: nat)
    requires i < |p.body|
    ensures Recorded(p, i, Steps(p.body[i])) ==
      if p.body[i].mutatesTokens then {} else Recorded(p, i, Steps(p.body[i]) - 1)
  {
    RecordedWithin(p, i);
  }

  /** What one step does to the record. */
  lemma RecordedStep(p: Program, i: nat, k: nat)
    requires i < |p.body| && k < Steps(p.body[i])
    ensures forall tokens :: Stores(p.body[i], k, tokens) ==> Recorded(p, i, k + 1) == tokens
    ensures Forgets(p.body[i], k) ==> Recorded(p, i, k + 1) == {}
    ensures !Affects(p.body[i], k) ==> Recorded(p, i, k + 1) == Recorded(p, i, k)
  {
    hide Recorded, TargetNames;
    var st := p.body[i];
    if k < |st.calls| {
      CallStep(p, i, k);
      if st.calls[k].ConfiguresTokens? { assert Stores(st, k, st.calls[k].tokens); }
    } else if k < Steps(st) - 1 {
      TargetStep(p, i, k);
      var t := Targets(st)[k - |st.calls|];
      TargetMentions(t);
      if t == One(Some(SERVER_TOKENS)) && st.kind.Assign? { assert Stores(st, k, st.kind.configured); }
    } else {
      LastStep(p, i);
    }
  }

  lemma TargetMentions(t: Target)
    ensures "server" in TargetNames(t) <==> Mentions(t, NameKey("server"))
  {
    ElementIsMentioned(if t.One? then [t.key] else t.elements, "server");
  }

  /** The tokens on record have an origin. */
  lemma {:induction false} OriginOf(p: Program, i: nat, k: nat) returns (origin: Origin)
    requires i < |p.body| && k <= Steps(p.body[i])
    ensures TokensAre(p, i, k, origin, Recorded(p, i, k))
    decreases i, k
  {
    hide Recorded, Stores, Forgets, Steps;
    if k == 0 {
      RecordedFirst(p, i);
      if i == 0 {
        origin := Never;
        NothingBefore(p);
      } else {
        origin := OriginOf(p, i - 1, Steps(p.body[i - 1]));
        RecordedLast(p, i - 1);
        SameMoment(p, i, origin, Recorded(p, i, 0));
      }
    } else {
      RecordedStep(p, i, k - 1);
      if Affects(p.body[i], k - 1) {
        origin := Step(i, k - 1);
      } else {
        origin := OriginOf(p, i, k - 1);
        OneStepLater(p, i, k - 1, origin, Recorded(p, i, k));
      }
    }
  }

  /** Only the recorded tokens have an origin. */
  lemma {:induction false} TokensOf(p: Program, i: nat, k: nat, origin: Origin, tokens: set<string>)
    requires i < |p.body| && k <= Steps(p.body[i])
    requires TokensAre(p, i, k, origin, tokens)
    ensures tokens == Recorded(p, i, k)
    decreases i, k
  {
    hide Recorded, Stores, Forgets, Steps;
    if k == 0 {
      RecordedFirst(p, i);
      if i == 0 {
        NothingRecordedFirst(p);
        assert origin == Never;
      } else {
        RecordedLast(p, i - 1);
        SameMoment(p, i, origin, tokens);
        TokensOf(p, i - 1, Steps(p.body[i - 1]), origin, tokens);
      }
    } else {
      RecordedStep(p, i, k - 1);
      if !Affects(p.body[i], k - 1) {
        OneStepLater(p, i, k - 1, origin, tokens);
        TokensOf(p, i, k - 1, origin, tokens);
      } else {
        assert origin == Step(i, k - 1);
      }
    }
  }

  lemma NothingBefore(p: Program)
    requires |p.body| > 0
    ensures TokensAre(p, 0, 0, Never, Recorded(p, 0, 0))
  {
  }

  lemma NothingRecordedFirst(p: Program)
    requires |p.body| > 0
    ensures Recorded(p, 0, 0) == {}
  {
  }

  lemma RecordedLast(p: Program, i: nat)
    requires i < |p.body|
    ensures Recorded(p, i, Steps(p.body[i])) == DirectAt(p, i + 1)
  {
  }

  /** After the last step of a statement comes the first of the next. */
  lemma SameMoment(p: Program, i: nat, origin: Origin, tokens: set<string>)
    requires 0 < i < |p.body|
    ensures TokensAre(p, i, 0, origin, tokens) <==> TokensAre(p, i - 1, Steps(p.body[i - 1]), origin, tokens)
  {
    hide Stores, Forgets, Affects, Steps;
    assert forall t: nat, f: nat :: t < |p.body| && f < Steps(p.body[t]) ==>
        (Before(t, f, i, 0) <==> Before(t, f, i - 1, Steps(p.body[i - 1])));
  }

  lemma OneStepLater(p: Program, i: nat, k: nat, origin: Origin, tokens: set<string>)
    requires i < |p.body| && k < Steps(p.body[i]) && !Affects(p.body[i], k)
    ensures TokensAre(p, i, k + 1, origin, tokens) <==> TokensAre(p, i, k, origin, tokens)
  {
    hide Stores, Forgets, Affects, Steps;
  }

  lemma {:induction false} SetterOf(p: Program, i: nat) returns (setter: Option<nat>)
    requires i <= |p.body|
    ensures EnvironmentIs(p, i, setter, EnvAt(p, i))
  {
    if i == 0 {
      setter := None;
    } else if p.body[i - 1].env.Some? {
      setter := Some(i - 1);
    } else {
      setter := SetterOf(p, i - 1);
    }
  }

  lemma {:induction false} EnvironmentOf(p: Program, i: nat, setter: Option<nat>, tokens: set<string>)
    requires i <= |p.body| && EnvironmentIs(p, i, setter, tokens)
    ensures tokens == EnvAt(p, i)
  {
    if i > 0 && p.body[i - 1].env.None? {
      EnvironmentOf(p, i - 1, setter, tokens);
    }
  }
}
