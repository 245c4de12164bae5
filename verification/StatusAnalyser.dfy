/** The walk over a test body that records which authenticated requests were seen to succeed
    (scripts/evaluate_dataset.py, `_authenticated_success_status_observations`). */
module StatusAnalyser {
  import opened Prelude
  import opened StatusProgram
  import opened StatusHistory
  import opened StatusTokens
  import opened StatusChain

  /** The records the walk keeps. */
  datatype State = State(
    servers: set<Name>, connections: set<Name>, shadowed: set<string>,
    direct: set<string>, env: set<string>,
    pending: map<Name, Observation>, statuses: map<Key, Observation>)

  ghost function Lookup<K, V>(m: map<K, V>, k: K): Option<V> {
    if k in m then Some(m[k]) else None
  }

  ghost predicate TracksNames(p: Program, i: nat, s: State)
    requires i <= |p.body|
  {
    && s.servers == ServersAt(p, i) && s.shadowed == ShadowedAt(p, i)
    && s.direct == DirectAt(p, i) && s.env == EnvAt(p, i)
    && forall c :: c in s.connections <==> Connected(p, i, c)
  }

  ghost predicate TracksPending(p: Program, i: nat, pending: map<Name, Observation>)
    requires i <= |p.body|
  {
    forall c :: Lookup(pending, c) == PendingAt(p, i, c)
  }

  ghost predicate TracksStatuses(p: Program, i: nat, statuses: map<Key, Observation>)
    requires i <= |p.body|
  {
    forall k :: Lookup(statuses, k) == StatusAt(p, i, k)
  }

  /** The records are what the first `i` statements have left. */
  ghost predicate Tracks(p: Program, i: nat, s: State)
    requires i <= |p.body|
  {
    TracksNames(p, i, s) && TracksPending(p, i, s.pending) && TracksStatuses(p, i, s.statuses)
  }

  /** The request on record for `c` after some calls. */
  ghost function Requested(calls: seq<Call>, connections: set<Name>, env: set<string>, direct: set<string>,
      pending: map<Name, Observation>, c: Name): Option<Observation> {
    if c in connections && LastRequest(calls, env, direct, c).Some? then LastRequest(calls, env, direct, c)
      else Lookup(pending, c)
  }

  lemma LastRequestStep(calls: seq<Call>, call: Call, env: set<string>, direct: set<string>, c: Name)
    ensures LastRequest(calls + [call], env, direct, c) ==
      if IsRequestOn(call, c) then Some(RequestObservation(call, env, DirectAfterCalls(calls, direct)))
        else LastRequest(calls, env, direct, c)
    ensures DirectAfterCalls(calls + [call], direct) ==
      match call { case ConfiguresTokens(tokens) => tokens case DropsTokens => {} case _ => DirectAfterCalls(calls, direct) }
  {
    assert (calls + [call])[..|calls|] == calls;
  }

  /** The scan of one statement's calls. */
  method ScanCalls(calls: seq<Call>, connections: set<Name>, env: set<string>, direct: set<string>,
      pending: map<Name, Observation>)
    returns (direct': set<string>, pending': map<Name, Observation>)
    ensures direct' == DirectAfterCalls(calls, direct)
    ensures forall c :: Lookup(pending', c) == Requested(calls, connections, env, direct, pending, c)
  {
    direct', pending' := direct, pending;
    for j := 0 to |calls|
      invariant direct' == DirectAfterCalls(calls[..j], direct)
      invariant forall c :: Lookup(pending', c) == Requested(calls[..j], connections, env, direct, pending, c)
    {
      assert calls[..j + 1] == calls[..j] + [calls[j]];
      ghost var was := pending';
      ghost var directly := direct';
      forall c
        ensures Requested(calls[..j + 1], connections, env, direct, pending, c) ==
          if c in connections && IsRequestOn(calls[j], c) then Some(RequestObservation(calls[j], env, directly))
            else Lookup(was, c)
      {
        LastRequestStep(calls[..j], calls[j], env, direct, c);
      }
      LastRequestStep(calls[..j], calls[j], env, direct, "");
      match calls[j] {
        case ConfiguresTokens(tokens) => direct' := tokens;
        case DropsTokens => direct' := {};
        case Request(c, tokens, verb, path, literals) =>
          if c in connections && tokens != {} {
            pending' := pending'[c := Observation(tokens, env, direct', None, verb, path, literals)];
          }
        case _ =>
      }
    }
    assert calls[..|calls|] == calls;
  }

  /** The loop over the names that an assignment binds. */
  method AssignNames(value: Value, names: seq<Name>, shadowed: set<string>, servers: set<Name>,
      connections: set<Name>, pending: map<Name, Observation>)
    returns (servers': set<Name>, connections': set<Name>, pending': map<Name, Observation>)
    ensures servers' == if value.CreatesServer? then servers + Members(names) else servers - Members(names)
    ensures forall c :: c in connections' <==> if c in names then Joins(value, names, servers, shadowed, c)
      else c in connections
    ensures pending' == pending - Members(names)
  {
    servers', connections', pending' := servers, connections, pending;
    for j := 0 to |names|
      invariant servers' == if value.CreatesServer? then servers + Members(names[..j])
        else servers - Members(names[..j])
      invariant forall c :: c in connections' <==> if c in names[..j]
        then Joins(value, names[..j], servers, shadowed, c) else c in connections
      invariant pending' == pending - Members(names[..j])
    {
      var name := names[j];
      assert names[..j + 1][..j] == names[..j];
      assert Members(names[..j + 1]) == Members(names[..j]) + {name};
      pending' := pending' - {name};
      if value.CreatesServer? {
        servers' := servers' + {name};
      } else {
        servers' := servers' - {name};
      }
      var reaches := CreatesConnection(value, servers', shadowed);
      if reaches {
        connections' := connections' + {name};
      } else {
        connections' := connections' - {name};
      }
    }
    assert names[..|names|] == names;
  }

  /** `_call_creates_poc_http_connection` */
  method CreatesConnection(value: Value, servers: set<Name>, shadowed: set<string>) returns (creates: bool)
    ensures creates <==> Reaches(value, servers, shadowed)
  {
    match value {
      case Connects(ctor, loopbackHost, host, port) =>
        if (ctor == Bare && "HTTPConnection" in shadowed) || (ctor == Dotted && "http" in shadowed) {
          return false;
        }
        var hosted := ReferencesHost(host, servers);
        if !loopbackHost && !hosted {
          return false;
        }
        creates := ReferencesPort(port, servers);
      case _ => creates := false;
    }
  }

  /** `_node_references_poc_server_host` */
  method ReferencesHost(host: seq<ServerRef>, servers: set<Name>) returns (found: bool)
    ensures found <==> HostRefers(host, servers)
  {
    for h := 0 to |host|
      invariant HostRefers(host, servers) <==> HostRefers(host[h..], servers)
    {
      assert host[h..][0] == host[h] && host[h..][1..] == host[h + 1..];
      if host[h].AddressPart? && host[h].index == 0 && host[h].server in servers {
        return true;
      }
      if host[h].PortAttr? && host[h].server in servers {
        return false;
      }
    }
    found := false;
  }

  /** `_node_references_poc_server_port` */
  method ReferencesPort(port: seq<ServerRef>, servers: set<Name>) returns (found: bool)
    ensures found <==> exists ref :: ref in port && PortRef(ref, servers)
  {
    for h := 0 to |port|
      invariant forall g :: 0 <= g < h ==> !PortRef(port[g], servers)
    {
      assert port[h] in port;
      if port[h].AddressPart? && port[h].index == 1 && port[h].server in servers {
        return true;
      }
      if port[h].PortAttr? && port[h].server in servers {
        return true;
      }
    }
    found := false;
  }

  /** What assigning to the targets, or deleting them, does to the tokens of the server. */
  method AssignTokens(targets: seq<Target>, stored: set<string>, direct: set<string>) returns (direct': set<string>)
    ensures direct' == DirectAfterTargets(targets, stored, direct)
  {
    direct' := direct;
    for j := 0 to |targets|
      invariant direct' == DirectAfterTargets(targets[..j], stored, direct)
    {
      assert targets[..j + 1][..j] == targets[..j];
      var names := TargetNames(targets[j]);
      ghost var before := direct';
      for k := 0 to |names|
        invariant direct' == if "server" in names[..k] then {} else before
      {
        if names[k] == "server" {
          direct' := {};
        }
      }
      assert names[..|names|] == names;
      if targets[j] == One(Some(AttrKey(NameKey("server"), "local_auth_tokens"))) {
        direct' := stored;
      }
    }
    assert targets[..|targets|] == targets;
  }

  /** `_discard_unrecorded_response_requests`, and the request that the assigned response answers. */
  method DiscardAnswered(st: Statement, pending: map<Name, Observation>) returns (kept: map<Name, Observation>)
    ensures forall c :: Lookup(kept, c) == if RespondsOn(st, c) then None else Lookup(pending, c)
  {
    kept := pending;
    if st.kind.Assign? && st.kind.value.GetsResponse? {
      kept := kept - {st.kind.value.connection};
    }
    ghost var unanswered := kept;
    for j := 0 to |st.calls|
      invariant forall c :: Lookup(kept, c) == if Responds(c) in st.calls[..j] then None else Lookup(unanswered, c)
    {
      match st.calls[j] {
        case Responds(c) => kept := kept - {c};
        case _ =>
      }
    }
    assert st.calls[..|st.calls|] == st.calls;
  }

  /** `_clear_status_observations_for_targets`: pop each key, and what is kept under it. */
  method ClearStatuses(statuses: map<Key, Observation>, keys: set<Key>) returns (kept: map<Key, Observation>)
    ensures forall k :: Lookup(kept, k) == if Clears(keys, k) then None else Lookup(statuses, k)
  {
    kept := statuses;
    var todo := keys;
    while todo != {}
      invariant todo <= keys
      invariant forall k :: Lookup(kept, k) == if Clears(keys - todo, k) then None else Lookup(statuses, k)
      decreases todo
    {
      var key :| key in todo;
      forall k
        ensures Clears(keys - (todo - {key}), k) <==>
          Clears(keys - todo, k) || k == key || (k.AttrKey? && k.parent == key)
      {
      }
      kept := map k | k in kept && k != key && !(k.AttrKey? && k.parent == key) :: kept[k];
      todo := todo - {key};
    }
  }

  /** Record one observation under several keys. */
  method RecordUnder(statuses: map<Key, Observation>, keys: set<Key>, o: Observation)
    returns (more: map<Key, Observation>)
    ensures forall k :: Lookup(more, k) == if k in keys then Some(o) else Lookup(statuses, k)
  {
    more := statuses;
    var todo := keys;
    while todo != {}
      invariant todo <= keys
      invariant forall k :: Lookup(more, k) == if k in keys - todo then Some(o) else Lookup(statuses, k)
      decreases todo
    {
      var key :| key in todo;
      more := more[key := o];
      todo := todo - {key};
    }
  }

  function SetattrKeys(calls: seq<Call>): set<Key> {
    set call | call in calls && call.SetsStatus? && call.base.Some? :: AttrKey(call.base.value, "status")
  }

  /** One statement, from the records before it to the records after it. */
  method Walk(p: Program, i: nat, s: State) returns (after: State)
    requires i < |p.body| && Tracks(p, i, s)
    ensures Tracks(p, i + 1, after)
  {
    hide *;
    var st := p.body[i];
    var called, requested := ScanCalls(st.calls, s.connections, s.env, s.direct, s.pending);
    RequestsTracked(p, i, s, requested);
    var names := BoundNames(st);
    var value := if st.kind.Assign? then st.kind.value else OtherValue;
    var servers, connections, unbound := AssignNames(value, names, s.shadowed, s.servers, s.connections, requested);
    var stored := if st.kind.Assign? then st.kind.configured else {};
    var direct := AssignTokens(Targets(st), stored, called);
    TokensAssigned(st, s.direct, direct);
    var shadowed := s.shadowed + Members(names);
    var env := if st.env.Some? then st.env.value else s.env;
    NamesTracked(p, i, s, servers, connections);
    UnboundTracked(p, i, requested, unbound);
    var statuses := WalkStatuses(p, i, s, connections, direct, unbound);
    var pending := DiscardAnswered(st, unbound);
    after := State(servers, connections, shadowed, if st.mutatesTokens then {} else direct, env, pending, statuses);
    Assembled(p, i, s, after, unbound);
  }

  lemma TokensAssigned(st: Statement, direct: set<string>, after: set<string>)
    requires after == DirectAfterTargets(Targets(st), if st.kind.Assign? then st.kind.configured else {},
      DirectAfterCalls(st.calls, direct))
    ensures after == DirectWithin(st, direct)
  {
  }

  lemma RequestsTracked(p: Program, i: nat, s: State, requested: map<Name, Observation>)
    requires i < |p.body| && Tracks(p, i, s)
    requires forall c ::
      Lookup(requested, c) == Requested(p.body[i].calls, s.connections, s.env, s.direct, s.pending, c)
    ensures forall c :: Lookup(requested, c) == PendingWithin(p, i, c)
  {
    hide LastRequest, Connected, DirectAt, EnvAt, PendingAt, PendingWithin, ServersAt, ShadowedAt, StatusAt;
    forall c ensures Lookup(requested, c) == PendingWithin(p, i, c) {
      PendingStep(p, i, c);
    }
  }

  lemma NamesTracked(p: Program, i: nat, s: State, servers: set<Name>, connections: set<Name>)
    requires i < |p.body| && Tracks(p, i, s)
    requires var value := if p.body[i].kind.Assign? then p.body[i].kind.value else OtherValue;
      && (servers ==
          if value.CreatesServer? then s.servers + Members(BoundNames(p.body[i]))
          else s.servers - Members(BoundNames(p.body[i])))
      && forall c :: c in connections <==>
           if c in BoundNames(p.body[i]) then Joins(value, BoundNames(p.body[i]), s.servers, s.shadowed, c)
             else c in s.connections
    ensures servers == ServersAt(p, i + 1)
    ensures forall c :: c in connections <==> Connected(p, i + 1, c)
  {
    hide BoundNames, Joins, Connected, PendingAt, StatusAt, Members;
    forall c ensures c in connections <==> Connected(p, i + 1, c) {
      ConnectionStep(p, i, c);
      if p.body[i].kind.Delete? {
        NothingJoins(OtherValue, BoundNames(p.body[i]), s.servers, s.shadowed, c);
      } else if !p.body[i].kind.Assign? {
        BindsNothing(p.body[i]);
      }
    }
  }

  lemma UnboundTracked(p: Program, i: nat, requested: map<Name, Observation>, unbound: map<Name, Observation>)
    requires i < |p.body| && forall c :: Lookup(requested, c) == PendingWithin(p, i, c)
    requires unbound == requested - Members(BoundNames(p.body[i]))
    ensures forall c :: Lookup(unbound, c) == if c in BoundNames(p.body[i]) then None else PendingWithin(p, i, c)
  {
    hide BoundNames, PendingWithin;
  }

  lemma BindsNothing(st: Statement)
    requires !st.kind.Assign? && !st.kind.Delete?
    ensures BoundNames(st) == []
  {
  }

  lemma {:induction false} NothingJoins(value: Value, names: seq<Name>, servers: set<Name>, shadowed: set<string>,
      c: Name)
    requires !value.Connects?
    ensures !Joins(value, names, servers, shadowed, c)
  {
    if names != [] {
      NothingJoins(value, names[..|names| - 1], servers, shadowed, c);
    }
  }

  lemma Assembled(p: Program, i: nat, s: State, after: State, unbound: map<Name, Observation>)
    requires i < |p.body| && Tracks(p, i, s)
    requires after.servers == ServersAt(p, i + 1)
    requires forall c :: c in after.connections <==> Connected(p, i + 1, c)
    requires after.shadowed == s.shadowed + Members(BoundNames(p.body[i]))
    requires after.direct == if p.body[i].mutatesTokens then {} else DirectWithin(p.body[i], s.direct)
    requires after.env == if p.body[i].env.Some? then p.body[i].env.value else s.env
    requires forall c :: Lookup(unbound, c) == if c in BoundNames(p.body[i]) then None else PendingWithin(p, i, c)
    requires forall c :: Lookup(after.pending, c) == if RespondsOn(p.body[i], c) then None else Lookup(unbound, c)
    requires TracksStatuses(p, i + 1, after.statuses)
    ensures Tracks(p, i + 1, after)
  {
    hide BoundNames, Connected, PendingWithin, StatusAt, Members, RespondsOn, DirectWithin;
    assert TracksPending(p, i + 1, after.pending) by {
      forall c ensures Lookup(after.pending, c) == PendingAt(p, i + 1, c) {
        assert Lookup(unbound, c) == if c in BoundNames(p.body[i]) then None else PendingWithin(p, i, c);
      }
    }
  }

  /** What is on record for `k` once the targets of statement `i` are dealt with. */
  ghost function AfterTargets(p: Program, i: nat, statuses: map<Key, Observation>, k: Key): Option<Observation>
    requires i < |p.body|
  {
    if RecordedIn(p, i, k).Some? then RecordedIn(p, i, k) else if TargetsClear(p.body[i], k) then None
      else Lookup(statuses, k)
  }

  /** What a statement does to the observed status expressions. */
  method WalkStatuses(p: Program, i: nat, s: State, connections: set<Name>, direct: set<string>, unbound: map<Name,
      Observation>)
    returns (statuses: map<Key, Observation>)
    requires i < |p.body| && Tracks(p, i, s)
    requires forall c :: c in connections <==> Connected(p, i + 1, c)
    requires direct == DirectWithin(p.body[i], s.direct)
    requires forall c :: Lookup(unbound, c) == if c in BoundNames(p.body[i]) then None else PendingWithin(p, i, c)
    ensures TracksStatuses(p, i + 1, statuses)
  {
    hide BoundNames, Connected, PendingWithin, StatusAt, DirectWithin, DirectAt, EnvAt, ServersAt, ShadowedAt,
      KeysOf, FirstKeys, Clears;
    var st := p.body[i];
    statuses := s.statuses;
    match st.kind {
      case Assign(targets, value, _) =>
        statuses := ClearStatuses(statuses, KeysOf(targets));
        match value {
          case CallsHelper(helper, first, fits, tokens, literals) =>
            if tokens != {} && helper in p.helpers && helper !in s.shadowed && fits
              && first.Some? && first.value in connections
            {
              var o := Observation(tokens, s.env, direct, None, Some(p.helpers[helper].verb),
                Some(p.helpers[helper].path), literals);
              statuses := RecordUnder(statuses, FirstKeys(targets), o);
            }
          case GetsResponse(c) =>
            if c in unbound {
              statuses := RecordUnder(statuses, set r | r in BoundNames(st) :: StatusKey(r), unbound[c]);
            }
          case _ =>
        }
      case Delete(targets) =>
        statuses := ClearStatuses(statuses, KeysOf(targets));
      case _ =>
    }
    assert forall k :: Lookup(statuses, k) == AfterTargets(p, i, s.statuses, k);
    statuses := ClearStatuses(statuses, SetattrKeys(st.calls));
    forall k ensures Lookup(statuses, k) == StatusAt(p, i + 1, k) {
      StatusStep(p, i, k);
      SetattrKeysClear(st, k);
    }
  }

  lemma SetattrKeysClear(st: Statement, k: Key)
    ensures Clears(SetattrKeys(st.calls), k) <==> SetattrClears(st, k)
  {
    if SetattrClears(st, k) {
      var call :| call in st.calls && call.SetsStatus? && call.base.Some? && Clears({AttrKey(call.base.value, "status")}, k);
      assert AttrKey(call.base.value, "status") in SetattrKeys(st.calls);
    }
  }

  // ---- The whole walk

  /** Statement `a` asserts success of a status that some chain explains, and `o` is what the
      chain observed together with the asserted code. */
  ghost predicate Justified(p: Program, a: nat, o: Observation) {
    && a < |p.body| && p.body[a].kind.Assert?
    && exists key, code, chain, seen :: JustifiedBy(p, a, o, key, code, chain, seen)
  }

  ghost predicate JustifiedBy(p: Program, a: nat, o: Observation, key: Key, code: int, chain: Chain,
      seen: Observation)
    requires a < |p.body| && p.body[a].kind.Assert?
  {
    && Asserts(p.body[a].kind.check, key, code)
    && Explains(p, a + 1, key, chain, seen)
    && o == seen.(status := Some(code))
  }

  ghost predicate Reports(p: Program, n: nat, observations: seq<Observation>, at: seq<nat>) {
    && |at| == |observations|
    && (forall r, t :: 0 <= r < t < |at| ==> at[r] <= at[t])
    && (forall r :: 0 <= r < |at| ==> at[r] < n && Justified(p, at[r], observations[r]))
    && (forall a: nat, o :: a < n && Justified(p, a, o) ==> exists r :: 0 <= r < |at| && at[r] == a && observations[r] == o)
  }

  /** Exactly the justified observations are reported, in the order of their asserts. */
  method SuccessObservations(p: Program) returns (observations: seq<Observation>)
    ensures exists at :: Reports(p, |p.body|, observations, at)
  {
    hide *;
    var s := State({}, {}, p.shadowedAtStart, {}, {}, map[], map[]);
    observations := [];
    ghost var at: seq<nat> := [];
    NothingTracked(p, s);
    NothingReported(p);
    for i := 0 to |p.body|
      invariant Tracks(p, i, s)
      invariant Reports(p, i, observations, at)
    {
      s := Walk(p, i, s);
      StatusesTracked(p, i + 1, s);
      observations, at := Report(p, i, s.statuses, observations, at);
    }
  }

  lemma StatusesTracked(p: Program, i: nat, s: State)
    requires i <= |p.body| && Tracks(p, i, s)
    ensures TracksStatuses(p, i, s.statuses)
  {
  }

  lemma NothingReported(p: Program)
    ensures Reports(p, 0, [], [])
  {
    hide Justified;
  }

  lemma NothingTracked(p: Program, s: State)
    requires s == State({}, {}, p.shadowedAtStart, {}, {}, map[], map[])
    ensures Tracks(p, 0, s)
  {
  }

  /** The observations that statement `i` adds. */
  method Report(p: Program, i: nat, statuses: map<Key, Observation>, before: seq<Observation>, ghost atBefore: seq<nat>)
    returns (observations: seq<Observation>, ghost at: seq<nat>)
    requires i < |p.body| && TracksStatuses(p, i + 1, statuses)
    requires Reports(p, i, before, atBefore)
    ensures Reports(p, i + 1, observations, at)
  {
    hide StatusAt, Explains;
    observations, at := before, atBefore;
    var st := p.body[i];
    if st.kind.Assert? {
      var keys := AssertedKeys(st.kind.check);
      var todo := keys;
      while todo != {}
        invariant todo <= keys
        invariant |at| == |observations| >= |before| && at[..|before|] == atBefore && observations[..|before|] == before
        invariant forall r :: |before| <= r < |at| ==> at[r] == i && Justified(p, i, observations[r])
        invariant forall k :: k in keys - todo && k in statuses ==>
          exists r :: |before| <= r < |at| && observations[r] == statuses[k].(status := AssertedStatus(st.kind.check))
        decreases todo
      {
        var key :| key in todo;
        if key in statuses {
          ghost var chain := ExplainedStatus(p, i + 1, key, statuses);
          AssertedMeans(st.kind.check, key, AssertedStatus(st.kind.check));
          assert JustifiedBy(p, i, statuses[key].(status := AssertedStatus(st.kind.check)), key,
            AssertedStatus(st.kind.check).value, chain, statuses[key]);
          observations := observations + [statuses[key].(status := AssertedStatus(st.kind.check))];
          at := at + [i];
          assert observations[|observations| - 1] == statuses[key].(status := AssertedStatus(st.kind.check));
        }
        assert keys - (todo - {key}) == (keys - todo) + {key};
        todo := todo - {key};
      }
    }
    ReportsMore(p, i, statuses, before, atBefore, observations, at);
  }

  lemma ExplainedStatus(p: Program, i: nat, key: Key, statuses: map<Key, Observation>) returns (chain: Chain)
    requires i <= |p.body| && TracksStatuses(p, i, statuses) && key in statuses
    ensures Explains(p, i, key, chain, statuses[key])
  {
    hide StatusAt, Explains;
    assert Lookup(statuses, key) == StatusAt(p, i, key);
    chain := EveryStatusIsExplained(p, i, key);
  }

  lemma ReportsMore(p: Program, i: nat, statuses: map<Key, Observation>, before: seq<Observation>,
      atBefore: seq<nat>, observations: seq<Observation>, at: seq<nat>)
    requires i < |p.body| && TracksStatuses(p, i + 1, statuses)
    requires Reports(p, i, before, atBefore)
    requires |at| == |observations| >= |before| && at[..|before|] == atBefore && observations[..|before|] == before
    requires forall r :: |before| <= r < |at| ==> at[r] == i && Justified(p, i, observations[r])
    requires p.body[i].kind.Assert? ==> forall k :: k in AssertedKeys(p.body[i].kind.check) && k in statuses ==>
      exists r :: |before| <= r < |at| && observations[r] == statuses[k].(status := AssertedStatus(p.body[i].kind.check))
    ensures Reports(p, i + 1, observations, at)
  {
    hide StatusAt, Explains, AssertedKeys;
    forall a: nat, o | a < i + 1 && Justified(p, a, o)
      ensures exists r :: 0 <= r < |at| && at[r] == a && observations[r] == o
    {
      if a < i {
        var r :| 0 <= r < |atBefore| && atBefore[r] == a && before[r] == o;
        assert at[r] == at[..|before|][r] && observations[r] == observations[..|before|][r];
      } else {
        var key, code, chain, seen :| JustifiedBy(p, a, o, key, code, chain, seen);
        EveryChainIsRecorded(p, i + 1, key, chain, seen);
        AssertedMeans(p.body[i].kind.check, key, Some(code));
        assert Lookup(statuses, key) == Some(seen);
      }
    }
    forall r | 0 <= r < |at|
      ensures at[r] < i + 1 && Justified(p, at[r], observations[r])
    {
      if r < |before| {
        assert at[r] == at[..|before|][r] && observations[r] == observations[..|before|][r];
      }
    }
    forall r, t | 0 <= r < t < |at| ensures at[r] <= at[t] {
      if r < |before| { assert at[r] == at[..|before|][r]; }
      if t < |before| { assert at[t] == at[..|before|][t]; }
    }
  }
}
