/** The chain of statements behind an observed status: a server is created, a connection to it
    is made, a request is sent on the connection, its response is bound to a name, and that
    name's status is still the one received. Nothing in the chain is rebound on the way. */
module StatusChain {
  import opened Prelude
  import opened StatusProgram
  import opened StatusHistory
  import opened StatusTokens

  ghost predicate BindsServer(st: Statement, n: Name) {
    st.kind.Assign? && st.kind.value.CreatesServer? && n in BoundNames(st)
  }

  /** No statement from `from` up to but not including `to` binds or deletes `n`. */
  ghost predicate Untouched(p: Program, from: nat, to: nat, n: Name)
    requires to <= |p.body|
  {
    forall t :: from <= t < to ==> n !in BoundNames(p.body[t])
  }

  /** Position `j` is the last at which `names` has `n`. */
  ghost predicate LastAt(names: seq<Name>, j: nat, n: Name) {
    j < |names| && names[j] == n && n !in names[j + 1..]
  }

  /** A server was bound to the name before statement `k`, and the name is untouched since. */
  ghost predicate IsServer(p: Program, k: nat, n: Name)
    requires k <= |p.body|
  {
    exists s :: 0 <= s < k && BindsServer(p.body[s], n) && Untouched(p, s + 1, k, n)
  }

  /** The test and the module leave the name alone up to statement `k`. */
  ghost predicate IsVisible(p: Program, k: nat, n: Name)
    requires k <= |p.body|
  {
    n !in p.shadowedAtStart && Untouched(p, 0, k, n)
  }

  /** A server that is not among the names `visited` by then. */
  ghost predicate IsReachable(p: Program, k: nat, visited: seq<Name>, n: Name)
    requires k <= |p.body|
  {
    IsServer(p, k, n) && n !in visited
  }

  /** The first reference to the address or the port of a server is to `server_address[0]`, other
      parts of the address apart. */
  ghost predicate HostIsServer(p: Program, k: nat, visited: seq<Name>, host: seq<ServerRef>)
    requires k <= |p.body|
  {
    exists h ::
      0 <= h < |host| && host[h] == AddressPart(host[h].server, 0) && IsReachable(p, k, visited, host[h].server)
      && forall g :: 0 <= g < h && host[g] == PortAttr(host[g].server) ==> !IsReachable(p, k, visited, host[g].server)
  }

  /** The value assigned by statement `k` connects to the host of a server and to the port of
      `server`. */
  ghost predicate ReachesServer(p: Program, k: nat, server: Name, visited: seq<Name>)
    requires k < |p.body| && p.body[k].kind.Assign?
  {
    var value := p.body[k].kind.value;
    && value.Connects?
    && IsVisible(p, k, match value.ctor { case Bare => "HTTPConnection" case Dotted => "http" })
    && (value.loopbackHost || HostIsServer(p, k, visited, value.host))
    && IsReachable(p, k, visited, server)
    && (AddressPart(server, 1) in value.port || PortAttr(server) in value.port)
  }

  /** Statement `k` makes `connection` a connection to `server`, which is still one when the
      name `connection` gets its value. */
  ghost predicate ConnectsTo(p: Program, k: nat, connection: Name, server: Name)
    requires k < |p.body|
  {
    var st := p.body[k];
    && st.kind.Assign?
    && exists j :: LastAt(BoundNames(st), j, connection) && ReachesServer(p, k, server, BoundNames(st)[..j + 1])
  }

  /** A server created at `created` is connected to at `connected`, and the connection is
      untouched until `until`. */
  datatype Link = Link(server: Name, connection: Name, created: nat, connected: nat)

  ghost predicate IsLink(p: Program, link: Link, until: nat) {
    && link.created < link.connected < until <= |p.body|
    && BindsServer(p.body[link.created], link.server)
    && Untouched(p, link.created + 1, link.connected, link.server)
    && ConnectsTo(p, link.connected, link.connection, link.server)
    && Untouched(p, link.connected + 1, until, link.connection)
  }

  /** The chain ends in what has set the tokens of the server and of the environment. */
  datatype Chain =
    | Direct(link: Link, requested: nat, call: nat, answered: nat, response: Name, direct: Origin, env: Option<nat>)
    | ViaHelper(link: Link, called: nat, direct: Origin, env: Option<nat>)

  ghost predicate NoRequestAfter(calls: seq<Call>, j: nat, c: Name) {
    forall x :: j < x < |calls| ==> !IsRequestOn(calls[x], c)
  }

  /** Nothing from `from` up to `to` touches the status expression `key`. */
  ghost predicate StatusKept(p: Program, from: nat, to: nat, key: Key)
    requires to <= |p.body|
  {
    forall t :: from <= t < to ==> !Overwrites(p.body[t], key) && !Sets(p.body[t], key)
  }

  /** The statement binds or deletes `key`, or what it is an attribute of. */
  ghost predicate Overwrites(st: Statement, key: Key) {
    Binds(st, key) || (key.AttrKey? && Binds(st, key.parent))
  }

  /** The request of the chain is the last one before the answer, and unanswered till then. */
  ghost predicate RequestStands(p: Program, requested: nat, call: nat, answered: nat, c: Name)
    requires requested <= answered < |p.body|
  {
    && call < |p.body[requested].calls|
    && IsRequestOn(p.body[requested].calls[call], c)
    && NoRequestAfter(p.body[requested].calls, call, c)
    && (forall t :: requested < t <= answered ==> forall x :: x in p.body[t].calls ==> !IsRequestOn(x, c))
    && (forall t :: requested <= t < answered ==> !RespondsOn(p.body[t], c))
  }

  /** `chain` explains the observation `o` of `key` before statement `i`. */
  ghost predicate Explains(p: Program, i: nat, key: Key, chain: Chain, o: Observation)
    requires i <= |p.body|
  {
    match chain
    case Direct(link, requested, call, answered, response, direct, env) =>
      && link.connected < requested <= answered < i
      && IsLink(p, link, answered + 1)
      && RequestStands(p, requested, call, answered, link.connection)
      && p.body[answered].kind.Assign? && p.body[answered].kind.value == GetsResponse(link.connection)
      && Binds(p.body[answered], NameKey(response)) && key == AttrKey(NameKey(response), "status")
      && !Sets(p.body[answered], key) && StatusKept(p, answered + 1, i, key)
      && IsSent(p.body[requested].calls[call], o)
      && TokensAre(p, requested, call, direct, o.directTokens) && EnvironmentIs(p, requested, env, o.envTokens)
    case ViaHelper(link, called, direct, env) =>
      && link.connected <= called < i
      && IsLink(p, link, called + 1)
      && p.body[called].kind.Assign? && IsFirst(p.body[called].kind.targets, key)
      && IsHelped(p, called, link.connection, o)
      && !Sets(p.body[called], key) && StatusKept(p, called + 1, i, key)
      && TokensAre(p, called, Steps(p.body[called]) - 1, direct, o.directTokens)
        && EnvironmentIs(p, called, env, o.envTokens)
  }

  /** The observation is of the request sent by the call. */
  ghost predicate IsSent(sent: Call, o: Observation) {
    && sent.Request? && o.tokens == sent.tokens && o.status == None
    && o.verb == sent.verb && o.path == sent.path && o.literals == sent.literals
  }

  /** `key` comes first in a tuple target. */
  ghost predicate IsFirst(targets: seq<Target>, key: Key) {
    exists t :: t in targets && t.Several? && t.elements != [] && t.elements[0] == Some(key)
  }

  /** The observation is of the request that a trusted helper makes on `connection`. */
  ghost predicate IsHelped(p: Program, k: nat, connection: Name, o: Observation)
    requires k < |p.body| && p.body[k].kind.Assign?
  {
    var v := p.body[k].kind.value;
    && v.CallsHelper? && v.tokens != {} && v.fitsSignature && v.firstArgument == Some(connection)
    && v.helper in p.helpers && IsVisible(p, k, v.helper)
    && o.tokens == v.tokens && o.status == None && o.literals == v.literals
    && o.verb == Some(p.helpers[v.helper].verb) && o.path == Some(p.helpers[v.helper].path)
  }

  // ---- Who is a server, who is a connection

  lemma {:induction false} ServerSince(p: Program, i: nat, n: Name) returns (s: nat)
    requires i <= |p.body| && n in ServersAt(p, i)
    ensures s < i && BindsServer(p.body[s], n) && Untouched(p, s + 1, i, n)
  {
    hide BoundNames;
    if BindsServer(p.body[i - 1], n) {
      s := i - 1;
    } else {
      s := ServerSince(p, i - 1, n);
    }
  }

  lemma {:induction false} ServerStands(p: Program, k: nat, n: Name, s: nat)
    requires s < k <= |p.body| && BindsServer(p.body[s], n) && Untouched(p, s + 1, k, n)
    ensures n in ServersAt(p, k)
  {
    hide BoundNames;
    if s < k - 1 {
      ServerStands(p, k - 1, n, s);
    }
  }

  lemma ServersAre(p: Program, k: nat, n: Name)
    requires k <= |p.body|
    ensures n in ServersAt(p, k) <==> IsServer(p, k, n)
  {
    hide ServersAt, BindsServer, Untouched;
    if n in ServersAt(p, k) {
      var s := ServerSince(p, k, n);
    }
    if IsServer(p, k, n) {
      var s :| 0 <= s < k && BindsServer(p.body[s], n) && Untouched(p, s + 1, k, n);
      ServerStands(p, k, n, s);
    }
  }

  lemma {:induction false} ShadowedAre(p: Program, k: nat, n: Name)
    requires k <= |p.body|
    ensures n !in ShadowedAt(p, k) <==> IsVisible(p, k, n)
  {
    hide BoundNames;
    if k > 0 {
      ShadowedAre(p, k - 1, n);
    }
  }

  lemma {:induction false} HostMeans(host: seq<ServerRef>, servers: set<Name>)
    ensures HostRefers(host, servers) <==>
      exists h :: 0 <= h < |host| && host[h] == AddressPart(host[h].server, 0) && host[h].server in servers
        && forall g :: 0 <= g < h && host[g] == PortAttr(host[g].server) ==> host[g].server !in servers
  {
    if host != [] {
      HostMeans(host[1..], servers);
      assert forall h :: 0 < h < |host| ==> host[h] == host[1..][h - 1];
      if HostRefers(host[1..], servers) {
        var h :| 0 <= h < |host[1..]| && host[1..][h] == AddressPart(host[1..][h].server, 0) && host[1..][h].server in servers
          && forall g :: 0 <= g < h && host[1..][g] == PortAttr(host[1..][g].server) ==>
            host[1..][g].server !in servers;
        assert host[h + 1] == AddressPart(host[h + 1].server, 0);
      }
    }
  }

  /** A connection is made exactly if some server is reached. */
  lemma ReachesMeans(p: Program, k: nat, visited: seq<Name>)
    requires k < |p.body| && p.body[k].kind.Assign?
    ensures Reaches(p.body[k].kind.value, ServersAt(p, k) - Members(visited), ShadowedAt(p, k)) <==>
      exists server :: ReachesServer(p, k, server, visited)
  {
    hide ServersAt, ShadowedAt, IsServer, IsVisible, HostRefers;
    var value := p.body[k].kind.value;
    var servers := ServersAt(p, k) - Members(visited);
    forall n ensures n in servers <==> IsReachable(p, k, visited, n) {
      ServersAre(p, k, n);
    }
    if value.Connects? {
      HostMeans(value.host, servers);
      ShadowedAre(p, k, BaseName(value.ctor));
      if Reaches(value, servers, ShadowedAt(p, k)) {
        var ref :| ref in value.port && PortRef(ref, servers);
        assert ReachesServer(p, k, ref.server, visited);
      }
    }
  }

  lemma ConnectionSince(p: Program, i: nat, c: Name) returns (k: nat)
    requires i <= |p.body| && Connected(p, i, c)
    ensures k < i && c in BoundNames(p.body[k]) && JoinsIn(p, k, c) && Untouched(p, k + 1, i, c)
  {
    var events := ConnectionEvents(p, i, c);
    k := LatestSince(events);
    assert events[k] == ConnectionEvent(p, k, c);
    forall t | k < t < i ensures c !in BoundNames(p.body[t]) {
      assert events[t] == ConnectionEvent(p, t, c);
    }
  }

  lemma ConnectionStands(p: Program, k: nat, i: nat, c: Name)
    requires k < i <= |p.body| && c in BoundNames(p.body[k]) && JoinsIn(p, k, c) && Untouched(p, k + 1, i, c)
    ensures Connected(p, i, c)
  {
    var events := ConnectionEvents(p, i, c);
    assert events[k] == ConnectionEvent(p, k, c);
    forall t | k < t < i ensures events[t] == Keep {
      assert events[t] == ConnectionEvent(p, t, c);
    }
    LatestStands(events, k);
  }

  lemma {:induction false} JoinsAtLast(value: Value, names: seq<Name>, servers: set<Name>, shadowed: set<string>,
      n: Name)
    ensures Joins(value, names, servers, shadowed, n) <==>
      exists j :: LastAt(names, j, n) && Reaches(value, servers - Members(names[..j + 1]), shadowed)
  {
    if names != [] {
      var init, last := names[..|names| - 1], names[|names| - 1];
      if last == n {
        assert names[..|names|] == names;
        assert forall j :: LastAt(names, j, n) ==> j == |names| - 1;
        assert LastAt(names, |names| - 1, n);
      } else {
        JoinsAtLast(value, init, servers, shadowed, n);
        forall j: nat | j < |init|
          ensures LastAt(names, j, n) <==> LastAt(init, j, n)
          ensures names[..j + 1] == init[..j + 1]
        {
          assert names[j + 1..] == init[j + 1..] + [last];
        }
      }
    }
  }

  /** Every known connection is one because of a link. */
  lemma LinkBehind(p: Program, i: nat, c: Name) returns (link: Link)
    requires i <= |p.body| && Connected(p, i, c)
    ensures link.connection == c && IsLink(p, link, i)
  {
    var k := ConnectionSince(p, i, c);
    var server := ServerReached(p, k, c);
    var s := ServerSince(p, k, server);
    link := Link(server, c, s, k);
  }

  lemma ServerReached(p: Program, k: nat, c: Name) returns (server: Name)
    requires k < |p.body| && JoinsIn(p, k, c)
    ensures server in ServersAt(p, k) && ConnectsTo(p, k, c, server)
  {
    hide Reaches, ReachesServer, ServersAt, ShadowedAt, BoundNames;
    var st := p.body[k];
    JoinsAtLast(st.kind.value, BoundNames(st), ServersAt(p, k), ShadowedAt(p, k), c);
    var j :| LastAt(BoundNames(st), j, c)
      && Reaches(st.kind.value, ServersAt(p, k) - Members(BoundNames(st)[..j + 1]), ShadowedAt(p, k));
    ReachesMeans(p, k, BoundNames(st)[..j + 1]);
    server :| ReachesServer(p, k, server, BoundNames(st)[..j + 1]);
    ReachedIsServer(p, k, server, BoundNames(st)[..j + 1]);
  }

  lemma ReachedIsServer(p: Program, k: nat, server: Name, visited: seq<Name>)
    requires k < |p.body| && p.body[k].kind.Assign? && ReachesServer(p, k, server, visited)
    ensures server in ServersAt(p, k)
  {
    ServersAre(p, k, server);
  }

  lemma JoinedByLink(p: Program, link: Link, i: nat)
    requires i <= |p.body| && IsLink(p, link, i)
    ensures Connected(p, i, link.connection)
  {
    hide Reaches, ReachesServer, ServersAt, ShadowedAt, BoundNames;
    var k, c := link.connected, link.connection;
    var st := p.body[k];
    var j :| LastAt(BoundNames(st), j, c) && ReachesServer(p, k, link.server, BoundNames(st)[..j + 1]);
    ReachesMeans(p, k, BoundNames(st)[..j + 1]);
    JoinsAtLast(st.kind.value, BoundNames(st), ServersAt(p, k), ShadowedAt(p, k), c);
    assert c in BoundNames(st);
    ConnectionStands(p, k, i, c);
  }

  // ---- Which request is pending

  lemma {:induction false} LastRequestAt(calls: seq<Call>, env: set<string>, direct: set<string>, c: Name, j: nat)
    requires j < |calls| && IsRequestOn(calls[j], c) && NoRequestAfter(calls, j, c)
    ensures LastRequest(calls, env, direct, c) == Some(RequestObservation(calls[j], env, DirectAfterCalls(calls[..j], direct)))
  {
    if j < |calls| - 1 {
      var init := calls[..|calls| - 1];
      assert init[..j] == calls[..j];
      LastRequestAt(init, env, direct, c, j);
    }
  }

  lemma {:induction false} LastRequestWitness(calls: seq<Call>, env: set<string>, direct: set<string>, c: Name)
    returns (j: nat)
    requires LastRequest(calls, env, direct, c).Some?
    ensures j < |calls| && IsRequestOn(calls[j], c) && NoRequestAfter(calls, j, c)
  {
    var init, last := calls[..|calls| - 1], calls[|calls| - 1];
    if IsRequestOn(last, c) {
      j := |calls| - 1;
    } else {
      j := LastRequestWitness(init, env, direct, c);
      forall x | j < x < |calls| ensures !IsRequestOn(calls[x], c) {
        if x < |init| { assert init[x] == calls[x]; }
      }
    }
  }

  lemma {:induction false} NoRequestNone(calls: seq<Call>, env: set<string>, direct: set<string>, c: Name)
    ensures LastRequest(calls, env, direct, c).None? <==> forall x :: x in calls ==> !IsRequestOn(x, c)
  {
    if calls != [] {
      assert calls == calls[..|calls| - 1] + [calls[|calls| - 1]];
      NoRequestNone(calls[..|calls| - 1], env, direct, c);
    }
  }

  /** The pending request was put on record by some statement and has stood since. */
  lemma PendingSince(p: Program, k: nat, c: Name) returns (q: nat)
    requires k < |p.body| && PendingWithin(p, k, c).Some?
    ensures q <= k && RequestIn(p, q, c) == PendingWithin(p, k, c)
    ensures forall t :: q < t <= k ==> RequestIn(p, t, c).None?
    ensures forall t :: q <= t < k ==> !Settles(p.body[t], c)
  {
    var events := PendingEvents(p, k + 1, c);
    q := LatestSince(events);
    assert events[q] == PendingEvent(p, q, c);
    forall t | q < t <= k
      ensures RequestIn(p, t, c).None? && !Settles(p.body[t - 1], c)
    {
      assert events[t] == PendingEvent(p, t, c);
    }
    forall t | q <= t < k ensures !Settles(p.body[t], c) {
      assert RequestIn(p, t + 1, c).None?;
    }
  }

  lemma PendingStands(p: Program, q: nat, k: nat, c: Name)
    requires q <= k < |p.body| && RequestIn(p, q, c).Some?
    requires forall t :: q < t <= k ==> RequestIn(p, t, c).None?
    requires forall t :: q <= t < k ==> !Settles(p.body[t], c)
    ensures PendingWithin(p, k, c) == RequestIn(p, q, c)
  {
    var events := PendingEvents(p, k + 1, c);
    assert events[q] == PendingEvent(p, q, c);
    forall t | q < t <= k ensures events[t] == Keep {
      assert events[t] == PendingEvent(p, t, c);
    }
    LatestStands(events, q);
  }

  // ---- Which status is on record

  lemma RecordingClears(p: Program, k: nat, key: Key)
    requires k < |p.body| && RecordedIn(p, k, key).Some?
    ensures TargetsClear(p.body[k], key)
  {
    var st := p.body[k];
    if st.kind.value.CallsHelper? {
      var t :| t in st.kind.targets && t.Several? && t.elements != [] && t.elements[0] == Some(key);
      assert t.elements[0] in t.elements;
      assert key in TargetKeys(t);
    } else {
      var r :| r in BoundNames(st) && key == StatusKey(r);
      NamesAreKeys(st.kind.targets, r);
    }
  }

  lemma {:induction false} NamesAreKeys(targets: seq<Target>, n: Name)
    requires n in NamesOf(targets)
    ensures NameKey(n) in KeysOf(targets)
  {
    var init, last := targets[..|targets| - 1], targets[|targets| - 1];
    assert targets == init + [last];
    if n in TargetNames(last) {
      ElementNamesAreKeys(if last.One? then [last.key] else last.elements, n);
      assert NameKey(n) in TargetKeys(last);
    } else {
      NamesAreKeys(init, n);
    }
  }

  lemma {:induction false} ElementNamesAreKeys(elements: seq<Option<Key>>, n: Name)
    requires n in ElementNames(elements)
    ensures Some(NameKey(n)) in elements
  {
    if elements[0] != Some(NameKey(n)) {
      ElementNamesAreKeys(elements[1..], n);
    }
  }

  lemma KeptMeans(p: Program, from: nat, to: nat, key: Key)
    requires to <= |p.body|
    ensures StatusKept(p, from, to, key) <==>
      forall t :: from <= t < to ==> !TargetsClear(p.body[t], key) && !SetattrClears(p.body[t], key)
  {
    hide TargetsClear, SetattrClears, Sets, Binds;
    forall t | from <= t < to
      ensures Overwrites(p.body[t], key) <==> TargetsClear(p.body[t], key)
      ensures Sets(p.body[t], key) <==> SetattrClears(p.body[t], key)
    {
      ClearedIsBound(p.body[t], key);
      ClearedIsSet(p.body[t], key);
    }
  }

  lemma StatusSince(p: Program, i: nat, key: Key) returns (g: nat)
    requires i <= |p.body| && StatusAt(p, i, key).Some?
    ensures g < i && RecordedIn(p, g, key) == StatusAt(p, i, key)
    ensures !Sets(p.body[g], key) && StatusKept(p, g + 1, i, key)
  {
    hide TargetsClear, SetattrClears, Sets, StatusKept, RecordedIn;
    var events := StatusEvents(p, i, key);
    g := LatestSince(events);
    KeptMeans(p, g + 1, i, key);
    ClearedIsSet(p.body[g], key);
    assert events[g] == StatusEvent(p, g, key);
    forall t | g < t < i
      ensures !TargetsClear(p.body[t], key) && !SetattrClears(p.body[t], key)
    {
      assert events[t] == StatusEvent(p, t, key);
    }
  }

  lemma StatusStands(p: Program, g: nat, i: nat, key: Key)
    requires g < i <= |p.body| && RecordedIn(p, g, key).Some?
    requires !Sets(p.body[g], key) && StatusKept(p, g + 1, i, key)
    ensures StatusAt(p, i, key) == RecordedIn(p, g, key)
  {
    hide TargetsClear, SetattrClears, Sets, StatusKept, RecordedIn;
    KeptMeans(p, g + 1, i, key);
    ClearedIsSet(p.body[g], key);
    var events := StatusEvents(p, i, key);
    assert events[g] == StatusEvent(p, g, key);
    forall t | g < t < i ensures events[t] == Keep {
      assert events[t] == StatusEvent(p, t, key);
      NothingRecorded(p, t, key);
    }
    LatestStands(events, g);
  }

  lemma NothingRecorded(p: Program, t: nat, key: Key)
    requires t < |p.body| && !TargetsClear(p.body[t], key)
    ensures RecordedIn(p, t, key).None?
  {
    if RecordedIn(p, t, key).Some? {
      RecordingClears(p, t, key);
    }
  }

  // ---- Soundness and completeness

  /** The request pending when statement `g` takes the answer. */
  lemma RequestBehind(p: Program, g: nat, c: Name) returns (link: Link, q: nat, j: nat)
    requires g < |p.body| && PendingWithin(p, g, c).Some? && c !in BoundNames(p.body[g])
    ensures link.connection == c && link.connected < q <= g && IsLink(p, link, g + 1)
    ensures RequestStands(p, q, j, g, c)
    ensures PendingWithin(p, g, c) ==
      Some(RequestObservation(p.body[q].calls[j], EnvAt(p, q), DirectAfterCalls(p.body[q].calls[..j], DirectAt(p, q))))
  {
    q := PendingSince(p, g, c);
    j := SentIn(p, q, c);
    link := LinkBehind(p, q, c);
    RequestHasStood(p, link, q, j, g);
  }

  lemma RequestHasStood(p: Program, link: Link, q: nat, j: nat, g: nat)
    requires q <= g < |p.body| && IsLink(p, link, q) && link.connection !in BoundNames(p.body[g])
    requires j < |p.body[q].calls| && IsRequestOn(p.body[q].calls[j], link.connection)
      && NoRequestAfter(p.body[q].calls, j, link.connection)
    requires forall t :: q < t <= g ==> RequestIn(p, t, link.connection).None?
    requires forall t :: q <= t < g ==> !Settles(p.body[t], link.connection)
    ensures IsLink(p, link, g + 1) && RequestStands(p, q, j, g, link.connection)
  {
    hide BoundNames, ServersAt, ShadowedAt, Connected, RequestIn, ConnectsTo, BindsServer, RespondsOn, EnvAt,
      DirectAt, IsRequestOn;
    StillConnected(p, link, q, g);
    forall t | q < t <= g
      ensures forall x :: x in p.body[t].calls ==> !IsRequestOn(x, link.connection)
    {
      NotSentIn(p, t, link.connection);
    }
  }

  /** Requests are pending on known connections only. */
  lemma PendingOnConnections(p: Program, i: nat, c: Name)
    requires i <= |p.body| && PendingAt(p, i, c).Some?
    ensures Connected(p, i, c)
  {
    hide BoundNames, ServersAt, ShadowedAt, Connected, RequestIn, ConnectsTo, BindsServer, RespondsOn, EnvAt,
      DirectAt, IsRequestOn;
    var q := PendingSince(p, i - 1, c);
    var j := SentIn(p, q, c);
    var link := LinkBehind(p, q, c);
    StillConnected(p, link, q, i);
  }

  lemma SentIn(p: Program, q: nat, c: Name) returns (j: nat)
    requires q < |p.body| && RequestIn(p, q, c).Some?
    ensures Connected(p, q, c) && j < |p.body[q].calls|
    ensures IsRequestOn(p.body[q].calls[j], c) && NoRequestAfter(p.body[q].calls, j, c)
    ensures RequestIn(p, q, c) ==
      Some(RequestObservation(p.body[q].calls[j], EnvAt(p, q), DirectAfterCalls(p.body[q].calls[..j], DirectAt(p, q))))
  {
    j := LastRequestWitness(p.body[q].calls, EnvAt(p, q), DirectAt(p, q), c);
    LastRequestAt(p.body[q].calls, EnvAt(p, q), DirectAt(p, q), c, j);
  }

  lemma NotSentIn(p: Program, t: nat, c: Name)
    requires t < |p.body| && Connected(p, t, c)
    ensures RequestIn(p, t, c).None? <==> forall x :: x in p.body[t].calls ==> !IsRequestOn(x, c)
  {
    NoRequestNone(p.body[t].calls, EnvAt(p, t), DirectAt(p, t), c);
  }

  lemma ExplainDirect(p: Program, i: nat, key: Key, g: nat) returns (chain: Chain)
    requires g < i <= |p.body| && RecordedIn(p, g, key).Some? && p.body[g].kind.value.GetsResponse?
    requires !Sets(p.body[g], key) && StatusKept(p, g + 1, i, key)
    ensures Explains(p, i, key, chain, RecordedIn(p, g, key).value)
  {
    hide IsLink, Sets, StatusKept, EnvAt, DirectAt, TokensAre, EnvironmentIs, Binds, BoundNames,
      PendingWithin, DirectAfterCalls;
    var c := p.body[g].kind.value.connection;
    var r :| r in BoundNames(p.body[g]) && key == StatusKey(r);
    NamesAreBound(p.body[g], r);
    var link, q, j := RequestBehind(p, g, c);
    var direct := OriginOf(p, q, j);
    RecordedAtCall(p, q, j);
    var env := SetterOf(p, q);
    chain := Direct(link, q, j, g, r, direct, env);
  }

  lemma RecordedAtCall(p: Program, q: nat, j: nat)
    requires q < |p.body| && j < |p.body[q].calls|
    ensures Recorded(p, q, j) == DirectAfterCalls(p.body[q].calls[..j], DirectAt(p, q))
  {
  }

  lemma ExplainHelper(p: Program, i: nat, key: Key, g: nat) returns (chain: Chain)
    requires g < i <= |p.body| && RecordedIn(p, g, key).Some? && p.body[g].kind.value.CallsHelper?
    requires !Sets(p.body[g], key) && StatusKept(p, g + 1, i, key)
    ensures Explains(p, i, key, chain, RecordedIn(p, g, key).value)
  {
    hide BoundNames, ServersAt, ShadowedAt, IsLink, Sets, StatusKept, Connected, EnvAt, DirectAt, DirectWithin,
      TokensAre, EnvironmentIs, Recorded, IsVisible;
    var link := LinkBehind(p, g + 1, p.body[g].kind.value.firstArgument.value);
    ShadowedAre(p, g, p.body[g].kind.value.helper);
    RecordedWithin(p, g);
    var direct := OriginOf(p, g, Steps(p.body[g]) - 1);
    var env := SetterOf(p, g);
    chain := ViaHelper(link, g, direct, env);
  }

  lemma StillConnected(p: Program, link: Link, q: nat, g: nat)
    requires q <= g <= |p.body| && IsLink(p, link, q)
    requires forall t :: q <= t < g ==> !Settles(p.body[t], link.connection)
    ensures forall t :: q <= t <= g ==> Connected(p, t, link.connection)
  {
    forall t | q <= t <= g
      ensures Connected(p, t, link.connection)
    {
      assert IsLink(p, link, t);
      JoinedByLink(p, link, t);
    }
  }

  /** Every observation on record has a chain behind it. */
  lemma EveryStatusIsExplained(p: Program, i: nat, key: Key) returns (chain: Chain)
    requires i <= |p.body| && StatusAt(p, i, key).Some?
    ensures Explains(p, i, key, chain, StatusAt(p, i, key).value)
  {
    var g := StatusSince(p, i, key);
    if p.body[g].kind.value.GetsResponse? {
      chain := ExplainDirect(p, i, key, g);
    } else {
      chain := ExplainHelper(p, i, key, g);
    }
  }

  /** Every chain is on record, with exactly the observation it explains. */
  lemma EveryChainIsRecorded(p: Program, i: nat, key: Key, chain: Chain, o: Observation)
    requires i <= |p.body| && Explains(p, i, key, chain, o)
    ensures StatusAt(p, i, key) == Some(o)
  {
    hide StatusAt, Explains;
    if chain.Direct? {
      DirectIsRecorded(p, i, key, chain, o);
    } else {
      HelpedIsRecorded(p, i, key, chain, o);
    }
  }

  lemma DirectIsRecorded(p: Program, i: nat, key: Key, chain: Chain, o: Observation)
    requires i <= |p.body| && chain.Direct? && Explains(p, i, key, chain, o)
    ensures StatusAt(p, i, key) == Some(o)
  {
    hide BoundNames, RespondsOn, EnvAt, DirectAt, Connected, Sets, StatusKept, TokensAre, EnvironmentIs, Binds, IsLink,
      PendingWithin, DirectAfterCalls, StatusAt;
    var q, j, g, c := chain.requested, chain.call, chain.answered, chain.link.connection;
    RequestIsPending(p, chain.link, q, j, g);
    TokensOf(p, q, j, chain.direct, o.directTokens);
    RecordedAtCall(p, q, j);
    EnvironmentOf(p, q, chain.env, o.envTokens);
    NamesAreBound(p.body[g], chain.response);
    assert chain.response in BoundNames(p.body[g]) && key == StatusKey(chain.response);
    LinkedIsUnbound(p, chain.link, g);
    assert RecordedIn(p, g, key) == Some(o);
    StatusStands(p, g, i, key);
  }

  lemma LinkedIsUnbound(p: Program, link: Link, g: nat)
    requires link.connected < g < |p.body| && IsLink(p, link, g + 1)
    ensures link.connection !in BoundNames(p.body[g])
  {
    hide BoundNames;
  }

  lemma RequestIsPending(p: Program, link: Link, q: nat, j: nat, g: nat)
    requires link.connected < q <= g < |p.body| && IsLink(p, link, g + 1)
    requires RequestStands(p, q, j, g, link.connection)
    ensures PendingWithin(p, g, link.connection) ==
      Some(RequestObservation(p.body[q].calls[j], EnvAt(p, q), DirectAfterCalls(p.body[q].calls[..j], DirectAt(p, q))))
  {
    hide BoundNames, ServersAt, ShadowedAt, ConnectsTo, BindsServer, RespondsOn, EnvAt, DirectAt, IsRequestOn,
      Connected;
    var c := link.connection;
    LastRequestAt(p.body[q].calls, EnvAt(p, q), DirectAt(p, q), c, j);
    forall t | q <= t < g ensures !Settles(p.body[t], c) {}
    assert IsLink(p, link, q);
    StillConnected(p, link, q, g);
    forall t | q < t <= g ensures RequestIn(p, t, c).None? {
      NotSentIn(p, t, c);
    }
    PendingStands(p, q, g, c);
  }

  lemma HelpedIsRecorded(p: Program, i: nat, key: Key, chain: Chain, o: Observation)
    requires i <= |p.body| && chain.ViaHelper? && Explains(p, i, key, chain, o)
    ensures StatusAt(p, i, key) == Some(o)
  {
    hide BoundNames, ServersAt, ShadowedAt, IsLink, Sets, StatusKept, Connected, EnvAt, DirectAt, DirectWithin,
      TokensAre, EnvironmentIs, Recorded, IsVisible, StatusAt;
    var g := chain.called;
    JoinedByLink(p, chain.link, g + 1);
    ShadowedAre(p, g, p.body[g].kind.value.helper);
    RecordedWithin(p, g);
    TokensOf(p, g, Steps(p.body[g]) - 1, chain.direct, o.directTokens);
    EnvironmentOf(p, g, chain.env, o.envTokens);
    assert RecordedIn(p, g, key) == Some(o);
    StatusStands(p, g, i, key);
  }

  /** In a direct chain the response name, too, is untouched from its binding on. */
  lemma ResponseUntouched(p: Program, i: nat, key: Key, chain: Chain, o: Observation)
    requires i <= |p.body| && Explains(p, i, key, chain, o) && chain.Direct?
    ensures Untouched(p, chain.answered + 1, i, chain.response)
  {
    forall t | chain.answered < t < i
      ensures chain.response !in BoundNames(p.body[t])
    {
      assert !Overwrites(p.body[t], key);
      NamesAreBound(p.body[t], chain.response);
    }
  }
}
