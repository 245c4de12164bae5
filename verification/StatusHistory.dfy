/** What the status analyser has on record before each statement, and what in the program's
    past put it there (scripts/evaluate_dataset.py). */
module StatusHistory {
  import opened Prelude
  import opened StatusProgram

  // ---- Records that are written and dropped

  /** What one statement does to a record: nothing, remove it, or put a value there. */
  datatype Event<+V> = Keep | Drop | Put(value: V)

  /** The value on record after the events. */
  ghost function Latest<V>(events: seq<Event<V>>): Option<V> {
    if events == [] then None
    else
      match events[|events| - 1]
      case Keep => Latest(events[..|events| - 1])
      case Drop => None
      case Put(v) => Some(v)
  }

  lemma LatestStep<V>(events: seq<Event<V>>, e: Event<V>)
    ensures Latest(events + [e]) == match e { case Keep => Latest(events) case Drop => None case Put(v) => Some(v) }
  {
    assert (events + [e])[..|events|] == events;
  }

  lemma {:induction false} LatestSince<V>(events: seq<Event<V>>) returns (t: nat)
    requires Latest(events).Some?
    ensures t < |events| && events[t] == Put(Latest(events).value)
    ensures forall u :: t < u < |events| ==> events[u] == Keep
  {
    t := |events| - 1;
    if events[t] == Keep {
      var init := events[..t];
      t := LatestSince(init);
      forall u | t < u < |events| ensures events[u] == Keep {
        if u < |init| { assert init[u] == events[u]; }
      }
    }
  }

  lemma {:induction false} LatestStands<V>(events: seq<Event<V>>, t: nat)
    requires t < |events| && events[t].Put?
    requires forall u :: t < u < |events| ==> events[u] == Keep
    ensures Latest(events) == Some(events[t].value)
  {
    if t < |events| - 1 {
      LatestStands(events[..|events| - 1], t);
    }
  }

  // ---- Servers and connections

  ghost function ServersAfter(st: Statement, servers: set<Name>): set<Name> {
    if st.kind.Assign? && st.kind.value.CreatesServer? then servers + Members(BoundNames(st))
    else servers - Members(BoundNames(st))
  }

  ghost function ServersAt(p: Program, i: nat): set<Name>
    requires i <= |p.body|
  {
    if i == 0 then {} else ServersAfter(p.body[i - 1], ServersAt(p, i - 1))
  }

  /** `_node_references_poc_server_host`, in the order of the walk. */
  ghost predicate HostRefers(host: seq<ServerRef>, servers: set<Name>) {
    if host == [] then false
    else if host[0].AddressPart? && host[0].index == 0 && host[0].server in servers then true
    else if host[0].PortAttr? && host[0].server in servers then false
    else HostRefers(host[1..], servers)
  }

  /** A reference to the port of a known server. */
  ghost predicate PortRef(ref: ServerRef, servers: set<Name>) {
    ref.server in servers && (ref.PortAttr? || ref.index == 1)
  }

  /** `_call_creates_poc_http_connection` */
  ghost predicate Reaches(value: Value, servers: set<Name>, shadowed: set<string>) {
    && value.Connects?
    && BaseName(value.ctor) !in shadowed
    && (value.loopbackHost || HostRefers(value.host, servers))
    && exists ref :: ref in value.port && PortRef(ref, servers)
  }

  ghost function BaseName(ctor: Constructor): string {
    match ctor case Bare => "HTTPConnection" case Dotted => "http"
  }

  ghost function ShadowedAt(p: Program, i: nat): set<string>
    requires i <= |p.body|
  {
    if i == 0 then p.shadowedAtStart else ShadowedAt(p, i - 1) + Members(BoundNames(p.body[i - 1]))
  }

  /** Whether `name` is a connection after the assignment of `value` to `names`, taken in
      order: by then the names already assigned are no servers any more. */
  ghost predicate Joins(value: Value, names: seq<Name>, servers: set<Name>, shadowed: set<string>, name: Name) {
    if names == [] then false
    else if names[|names| - 1] == name then Reaches(value, servers - Members(names), shadowed)
    else Joins(value, names[..|names| - 1], servers, shadowed, name)
  }

  /** Statement `k` makes `c` a connection. */
  ghost predicate JoinsIn(p: Program, k: nat, c: Name)
    requires k < |p.body|
  {
    p.body[k].kind.Assign? && Joins(p.body[k].kind.value, BoundNames(p.body[k]), ServersAt(p, k), ShadowedAt(p, k), c)
  }

  ghost function ConnectionEvent(p: Program, t: nat, c: Name): Event<()>
    requires t < |p.body|
  {
    if c !in BoundNames(p.body[t]) then Keep else if JoinsIn(p, t, c) then Put(()) else Drop
  }

  ghost function ConnectionEvents(p: Program, n: nat, c: Name): seq<Event<()>>
    requires n <= |p.body|
  {
    seq(n, t requires 0 <= t < n => ConnectionEvent(p, t, c))
  }

  ghost predicate Connected(p: Program, i: nat, c: Name)
    requires i <= |p.body|
  {
    Latest(ConnectionEvents(p, i, c)).Some?
  }

  lemma ConnectionStep(p: Program, i: nat, c: Name)
    requires i < |p.body|
    ensures Connected(p, i + 1, c) <==> if c in BoundNames(p.body[i]) then JoinsIn(p, i, c) else Connected(p, i, c)
  {
    hide JoinsIn, BoundNames;
    assert ConnectionEvents(p, i + 1, c) == ConnectionEvents(p, i, c) + [ConnectionEvent(p, i, c)];
    LatestStep(ConnectionEvents(p, i, c), ConnectionEvent(p, i, c));
  }

  // ---- Tokens configured on the server and in the environment

  ghost function DirectAfterCalls(calls: seq<Call>, direct: set<string>): set<string> {
    if calls == [] then direct
    else
      match calls[|calls| - 1]
      case ConfiguresTokens(tokens) => tokens
      case DropsTokens => {}
      case _ => DirectAfterCalls(calls[..|calls| - 1], direct)
  }

  ghost function DirectAfterTarget(t: Target, stored: set<string>, direct: set<string>): set<string> {
    if t == One(Some(SERVER_TOKENS)) then stored
    else if "server" in TargetNames(t) then {}
    else direct
  }

  ghost function DirectAfterTargets(targets: seq<Target>, stored: set<string>, direct: set<string>): set<string> {
    if targets == [] then direct
    else DirectAfterTarget(targets[|targets| - 1], stored, DirectAfterTargets(targets[..|targets| - 1], stored, direct))
  }

  /** The configured tokens once the calls and the targets of a statement are dealt with. */
  ghost function DirectWithin(st: Statement, direct: set<string>): set<string> {
    var called := DirectAfterCalls(st.calls, direct);
    match st.kind
    case Assign(targets, _, configured) => DirectAfterTargets(targets, configured, called)
    case Delete(targets) => DirectAfterTargets(targets, {}, called)
    case _ => called
  }

  ghost function DirectAt(p: Program, i: nat): set<string>
    requires i <= |p.body|
  {
    if i == 0 then {}
    else if p.body[i - 1].mutatesTokens then {}
    else DirectWithin(p.body[i - 1], DirectAt(p, i - 1))
  }

  ghost function EnvAt(p: Program, i: nat): set<string>
    requires i <= |p.body|
  {
    if i == 0 then {}
    else if p.body[i - 1].env.Some? then p.body[i - 1].env.value
    else EnvAt(p, i - 1)
  }

  // ---- Requests waiting for their response

  ghost predicate IsRequestOn(call: Call, c: Name) {
    call.Request? && call.connection == c && call.tokens != {}
  }

  ghost function RequestObservation(call: Call, env: set<string>, direct: set<string>): Observation
    requires call.Request?
  {
    Observation(call.tokens, env, direct, None, call.verb, call.path, call.literals)
  }

  /** The last request with tokens on `c` among the calls of one statement. */
  ghost function LastRequest(calls: seq<Call>, env: set<string>, direct: set<string>, c: Name): Option<Observation> {
    if calls == [] then None
    else
      var init, last := calls[..|calls| - 1], calls[|calls| - 1];
      if IsRequestOn(last, c) then Some(RequestObservation(last, env, DirectAfterCalls(init, direct)))
      else LastRequest(init, env, direct, c)
  }

  ghost function RequestIn(p: Program, k: nat, c: Name): Option<Observation>
    requires k < |p.body|
  {
    if Connected(p, k, c) then LastRequest(p.body[k].calls, EnvAt(p, k), DirectAt(p, k), c) else None
  }

  /** `_response_connections_seen` */
  ghost predicate RespondsOn(st: Statement, c: Name) {
    Responds(c) in st.calls || (st.kind.Assign? && st.kind.value == GetsResponse(c))
  }

  /** The request on `c` is gone after the statement: answered, or the name rebound. */
  ghost predicate Settles(st: Statement, c: Name) {
    c in BoundNames(st) || RespondsOn(st, c)
  }

  /** What statement `t` does to the pending request before it looks at its own assignment:
      a request is put on record, or the statement before has settled the last one. */
  ghost function PendingEvent(p: Program, t: nat, c: Name): Event<Observation>
    requires t < |p.body|
  {
    if RequestIn(p, t, c).Some? then Put(RequestIn(p, t, c).value)
    else if t > 0 && Settles(p.body[t - 1], c) then Drop
    else Keep
  }

  ghost function PendingEvents(p: Program, n: nat, c: Name): seq<Event<Observation>>
    requires n <= |p.body|
  {
    seq(n, t requires 0 <= t < n => PendingEvent(p, t, c))
  }

  /** The request pending on `c` after the calls of statement `k`, before its assignment. */
  ghost function PendingWithin(p: Program, k: nat, c: Name): Option<Observation>
    requires k < |p.body|
  {
    Latest(PendingEvents(p, k + 1, c))
  }

  ghost function PendingAt(p: Program, i: nat, c: Name): Option<Observation>
    requires i <= |p.body|
  {
    if i == 0 || Settles(p.body[i - 1], c) then None else PendingWithin(p, i - 1, c)
  }

  lemma PendingStep(p: Program, k: nat, c: Name)
    requires k < |p.body|
    ensures PendingWithin(p, k, c) == if RequestIn(p, k, c).Some? then RequestIn(p, k, c) else PendingAt(p, k, c)
  {
    hide RequestIn, Settles;
    assert PendingEvents(p, k + 1, c) == PendingEvents(p, k, c) + [PendingEvent(p, k, c)];
    LatestStep(PendingEvents(p, k, c), PendingEvent(p, k, c));
  }

  // ---- Status expressions under observation

  ghost predicate HelperVisible(p: Program, k: nat, helper: string)
    requires k < |p.body|
  {
    helper in p.helpers && helper !in ShadowedAt(p, k)
  }

  /** The observation a trusted helper's call in statement `k` stands for. */
  ghost function HelperObservation(p: Program, k: nat): Option<Observation>
    requires k < |p.body|
  {
    var st := p.body[k];
    if && st.kind.Assign? && st.kind.value.CallsHelper?
       && var v := st.kind.value;
          && v.tokens != {} && HelperVisible(p, k, v.helper) && v.fitsSignature
          && v.firstArgument.Some? && Connected(p, k + 1, v.firstArgument.value)
    then
      var v := st.kind.value;
      Some(Observation(v.tokens, EnvAt(p, k), DirectWithin(st, DirectAt(p, k)), None,
        Some(p.helpers[v.helper].verb), Some(p.helpers[v.helper].path), v.literals))
    else None
  }

  function StatusKey(response: Name): Key {
    AttrKey(NameKey(response), "status")
  }

  /** What statement `k` records under `key`. */
  ghost function RecordedIn(p: Program, k: nat, key: Key): Option<Observation>
    requires k < |p.body|
  {
    var st := p.body[k];
    if !st.kind.Assign? then None
    else if st.kind.value.CallsHelper? then
      (if key in FirstKeys(st.kind.targets) then HelperObservation(p, k) else None)
    else if st.kind.value.GetsResponse? then
      (if (exists r :: r in BoundNames(st) && key == StatusKey(r)) && st.kind.value.connection !in BoundNames(st)
       then PendingWithin(p, k, st.kind.value.connection) else None)
    else None
  }

  ghost function StatusEvent(p: Program, t: nat, key: Key): Event<Observation>
    requires t < |p.body|
  {
    if SetattrClears(p.body[t], key) then Drop
    else if RecordedIn(p, t, key).Some? then Put(RecordedIn(p, t, key).value)
    else if TargetsClear(p.body[t], key) then Drop
    else Keep
  }

  ghost function StatusEvents(p: Program, n: nat, key: Key): seq<Event<Observation>>
    requires n <= |p.body|
  {
    seq(n, t requires 0 <= t < n => StatusEvent(p, t, key))
  }

  ghost function StatusAt(p: Program, i: nat, key: Key): Option<Observation>
    requires i <= |p.body|
  {
    Latest(StatusEvents(p, i, key))
  }

  lemma StatusStep(p: Program, i: nat, key: Key)
    requires i < |p.body|
    ensures StatusAt(p, i + 1, key) ==
      match StatusEvent(p, i, key) { case Keep => StatusAt(p, i, key) case Drop => None case Put(o) => Some(o) }
  {
    hide StatusEvent;
    assert StatusEvents(p, i + 1, key) == StatusEvents(p, i, key) + [StatusEvent(p, i, key)];
    LatestStep(StatusEvents(p, i, key), StatusEvent(p, i, key));
  }
}
