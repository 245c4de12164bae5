/** Straight-line test bodies as the status analyser sees them
    (scripts/evaluate_dataset.py, `_authenticated_success_status_observations`): each statement
    is what the walker extracts from its syntax tree. */
module StatusProgram {
  import opened Prelude

  type Name = string

  /** `_status_expr_key`: a name, or an attribute of something with a key. */
  datatype Key = NameKey(name: Name) | AttrKey(parent: Key, attr: string)

  /** An assignment target: one expression, or a flat tuple of expressions. Expressions that
      are neither names nor attribute chains have no key. */
  datatype Target = One(key: Option<Key>) | Several(elements: seq<Option<Key>>)

  /** A reference to `server.server_address[index]` or to `server.server_port`. */
  datatype ServerRef = AddressPart(server: Name, index: int) | PortAttr(server: Name)

  /** `HTTPConnection`, or `http.client.HTTPConnection`. */
  datatype Constructor = Bare | Dotted

  datatype Value =
    | CreatesServer
    | Connects(ctor: Constructor, loopbackHost: bool, host: seq<ServerRef>, port: seq<ServerRef>)
    | GetsResponse(connection: Name)
    | CallsHelper(helper: string, firstArgument: Option<Name>, fitsSignature: bool, tokens: set<string>,
      literals: set<string>)
    | OtherValue

  datatype Call =
    | Request(connection: Name, tokens: set<string>, verb: Option<string>, path: Option<string>, literals: set<string>)
    | Responds(connection: Name)
    | ConfiguresTokens(tokens: set<string>)
    | DropsTokens
    | SetsStatus(base: Option<Key>)

  datatype Operand = Literal(value: int) | Expression(key: Option<Key>)

  datatype Check = Equals(left: Operand, right: Operand) | OtherCheck

  /** `configured` is what the assigned value configures if stored in `server.local_auth_tokens`. */
  datatype Kind =
    | Assign(targets: seq<Target>, value: Value, configured: set<string>)
    | Delete(targets: seq<Target>)
    | Assert(check: Check)
    | Plain

  /** `calls` are in the order the walker meets them; `env` is the new set of environment
      tokens, if the statement changes it. */
  datatype Statement = Statement(calls: seq<Call>, kind: Kind, mutatesTokens: bool, env: Option<set<string>>)

  datatype Helper = Helper(verb: string, path: string)

  datatype Program = Program(body: seq<Statement>, shadowedAtStart: set<string>, helpers: map<string, Helper>)

  datatype Observation = Observation(
    tokens: set<string>, envTokens: set<string>, directTokens: set<string>,
    status: Option<int>, verb: Option<string>, path: Option<string>, literals: set<string>)

  const SUCCESS_STATUS_CODES := {200, 202}
  const SERVER_TOKENS := AttrKey(NameKey("server"), "local_auth_tokens")

  // ---- What one statement binds

  function ElementNames(elements: seq<Option<Key>>): seq<Name> {
    if elements == [] then []
    else (match elements[0] case Some(NameKey(n)) => [n] case _ => []) + ElementNames(elements[1..])
  }

  /** `_assigned_name_targets`, for flat targets the same as `_target_name_bindings` */
  function TargetNames(t: Target): seq<Name> {
    match t
    case One(key) => ElementNames([key])
    case Several(elements) => ElementNames(elements)
  }

  function NamesOf(targets: seq<Target>): seq<Name> {
    if targets == [] then [] else NamesOf(targets[..|targets| - 1]) + TargetNames(targets[|targets| - 1])
  }

  function BoundNames(st: Statement): seq<Name> {
    match st.kind
    case Assign(targets, _, _) => NamesOf(targets)
    case Delete(targets) => NamesOf(targets)
    case _ => []
  }

  // ---- Bindings, mentions and assertions, read off the syntax

  /** The targets that are assigned to or deleted. */
  function Targets(st: Statement): seq<Target> {
    match st.kind
    case Assign(targets, _, _) => targets
    case Delete(targets) => targets
    case _ => []
  }

  /** The target is `k`, or a tuple with `k` in it. */
  ghost predicate Mentions(t: Target, k: Key) {
    t == One(Some(k)) || (t.Several? && Some(k) in t.elements)
  }

  /** The statement assigns to `k` or deletes it. */
  ghost predicate Binds(st: Statement, k: Key) {
    exists t :: t in Targets(st) && Mentions(t, k)
  }

  /** The bound names are the names among the targets, one target after the other. */
  lemma NamesAreBound(st: Statement, n: Name)
    ensures n in BoundNames(st) <==> Binds(st, NameKey(n))
  {
    NamesAreMentioned(Targets(st), n);
  }

  lemma {:induction false} NamesAreMentioned(targets: seq<Target>, n: Name)
    ensures n in NamesOf(targets) <==> exists t :: t in targets && Mentions(t, NameKey(n))
  {
    if targets == [] {
      assert forall t :: t !in targets;
    } else {
      var init, last := targets[..|targets| - 1], targets[|targets| - 1];
      assert targets == init + [last];
      assert forall t :: t in targets <==> t in init || t == last;
      NamesAreMentioned(init, n);
      ElementIsMentioned(if last.One? then [last.key] else last.elements, n);
      assert n in TargetNames(last) <==> Mentions(last, NameKey(n));
    }
  }

  lemma {:induction false} ElementIsMentioned(elements: seq<Option<Key>>, n: Name)
    ensures n in ElementNames(elements) <==> Some(NameKey(n)) in elements
  {
    if elements != [] {
      ElementIsMentioned(elements[1..], n);
    }
  }

  lemma {:induction false} NamesInOrder(targets: seq<Target>, more: seq<Target>)
    ensures NamesOf(targets + more) == NamesOf(targets) + NamesOf(more)
  {
    hide TargetNames;
    if more == [] {
      assert targets + more == targets;
    } else {
      var init := more[..|more| - 1];
      NamesInOrder(targets, init);
      var all := targets + more;
      assert all[..|all| - 1] == targets + init && all[|all| - 1] == more[|more| - 1];
      calc {
        NamesOf(all);
        (NamesOf(targets) + NamesOf(init)) + TargetNames(more[|more| - 1]);
        NamesOf(targets) + (NamesOf(init) + TargetNames(more[|more| - 1]));
      }
    }
  }

  function Members(names: seq<Name>): set<Name> {
    set n | n in names
  }

  /** `_assigned_observation_keys` */
  function TargetKeys(t: Target): set<Key> {
    match t
    case One(key) => if key.Some? then {key.value} else {}
    case Several(elements) => set e | e in elements && e.Some? :: e.value
  }

  function KeysOf(targets: seq<Target>): set<Key> {
    set t, k | t in targets && k in TargetKeys(t) :: k
  }

  /** `_assigned_status_expr_keys`: the first element of a tuple target. */
  function FirstKeys(targets: seq<Target>): set<Key> {
    set t | t in targets && t.Several? && t.elements != [] && t.elements[0].Some? :: t.elements[0].value
  }

  /** Assigning to one of `keys` makes stale what is recorded under it or under an attribute of it. */
  ghost predicate Clears(keys: set<Key>, k: Key) {
    k in keys || (k.AttrKey? && k.parent in keys)
  }

  ghost predicate TargetsClear(st: Statement, k: Key) {
    match st.kind
    case Assign(targets, _, _) => Clears(KeysOf(targets), k)
    case Delete(targets) => Clears(KeysOf(targets), k)
    case _ => false
  }

  /** What is observed under `k` is stale after the statement assigns to `k` or to what it is an
      attribute of. */
  lemma ClearedIsBound(st: Statement, k: Key)
    ensures TargetsClear(st, k) <==> Binds(st, k) || (k.AttrKey? && Binds(st, k.parent))
  {
    assert forall t, x :: x in TargetKeys(t) <==> Mentions(t, x);
    assert forall x :: x in KeysOf(Targets(st)) <==> Binds(st, x);
  }

  /** `setattr` sets the status of `k`, or `k` is an attribute of a status that is set. */
  ghost predicate Sets(st: Statement, k: Key) {
    exists base :: SetsStatus(Some(base)) in st.calls && (k == StatusOf(base) || (k.AttrKey? && k.parent == StatusOf(base)))
  }

  ghost function StatusOf(base: Key): Key {
    AttrKey(base, "status")
  }

  lemma ClearedIsSet(st: Statement, k: Key)
    ensures SetattrClears(st, k) <==> Sets(st, k)
  {
    if Sets(st, k) {
      var base :| SetsStatus(Some(base)) in st.calls && (k == StatusOf(base) || (k.AttrKey? && k.parent == StatusOf(base)));
      assert Clears({AttrKey(base, "status")}, k);
    }
  }

  ghost predicate SetattrClears(st: Statement, k: Key) {
    exists call :: call in st.calls && call.SetsStatus? && call.base.Some? && Clears({AttrKey(call.base.value, "status")}, k)
  }

  // ---- What one statement asserts

  /** `_success_status_asserted_expr_keys` */
  function AssertedKeys(check: Check): set<Key> {
    match check
    case OtherCheck => {}
    case Equals(left, right) =>
      if (left.Literal? && left.value in SUCCESS_STATUS_CODES) || (right.Literal? && right.value in SUCCESS_STATUS_CODES)
      then (if left.Expression? && left.key.Some? then {left.key.value} else {})
         + (if right.Expression? && right.key.Some? then {right.key.value} else {})
      else {}
  }

  /** `_asserted_status_code` */
  function AssertedStatus(check: Check): Option<int> {
    match check
    case OtherCheck => None
    case Equals(left, right) =>
      if left.Literal? then Some(left.value) else if right.Literal? then Some(right.value) else None
  }

  /** `expression == code`, either way round, with a code of success. */
  ghost predicate Asserts(check: Check, key: Key, code: int) {
    && code in {200, 202}
    && (check == Equals(Literal(code), Expression(Some(key))) || check == Equals(Expression(Some(key)), Literal(code)))
  }

  lemma AssertedMeans(check: Check, key: Key, code: Option<int>)
    ensures key in AssertedKeys(check) && code == AssertedStatus(check) <==>
      code.Some? && Asserts(check, key, code.value)
  {
  }

  // ---- Keys as the source spells them

  ghost function Spell(k: Key): string {
    match k
    case NameKey(n) => "name:" + n
    case AttrKey(parent, attr) => "attr:" + Spell(parent) + "." + attr
  }

  ghost predicate IsIdentifier(s: string) {
    s != "" && '.' !in s && ':' !in s
  }

  ghost predicate Spellable(k: Key) {
    match k
    case NameKey(n) => IsIdentifier(n)
    case AttrKey(parent, attr) => Spellable(parent) && IsIdentifier(attr)
  }

  /** `_clear_status_observations_for_targets` drops, with a key, everything whose spelling
      starts with `attr:<key>.`; those are exactly the attributes of that key. */
  lemma SpelledPrefixIsParent(key: Key, observed: Key)
    requires Spellable(key) && Spellable(observed)
    ensures "attr:" + Spell(key) + "." <= Spell(observed) <==> observed.AttrKey? && observed.parent == key
  {
    var prefix := "attr:" + Spell(key) + ".";
    if prefix <= Spell(observed) {
      assert prefix[0] == 'a' && Spell(observed)[0] == 'a';
      SpelledUnder(key, observed);
    }
  }

  lemma SpelledUnder(key: Key, observed: Key)
    requires Spellable(key) && Spellable(observed) && observed.AttrKey?
    requires "attr:" + Spell(key) + "." <= Spell(observed)
    ensures observed.parent == key
  {
    var inner := Spell(observed.parent) + "." + observed.attr;
    assert Spell(observed) == "attr:" + inner;
    assert "attr:" + Spell(key) + "." == "attr:" + (Spell(key) + ".");
    CommonFront("attr:", Spell(key) + ".", inner);
    var rest := inner[|Spell(key)| + 1..];
    assert inner == Spell(key) + "." + rest;
    SameSpelling(key, observed.parent, rest, observed.attr);
  }

  lemma CommonFront(front: string, a: string, b: string)
    requires front + a <= front + b
    ensures a <= b
  {
    assert a == (front + a)[|front|..];
    assert b == (front + b)[|front|..];
  }

  lemma {:induction false} SameSpelling(a: Key, b: Key, rest: string, more: string)
    requires Spellable(a) && Spellable(b)
    requires Spell(a) + "." + rest == Spell(b) + "." + more
    ensures a == b
    decreases Height(b)
  {
    var s, t := Spell(a) + "." + rest, Spell(b) + "." + more;
    assert s[0] == Spell(a)[0] && t[0] == Spell(b)[0];
    if a.NameKey? {
      FirstDot("name:" + a.name, rest, "name:" + b.name, more);
      assert a.name == Spell(a)[5..];
      assert b.name == Spell(b)[5..];
    } else {
      var x, y := Spell(a.parent) + "." + (a.attr + "." + rest), Spell(b.parent) + "." + (b.attr + "." + more);
      assert s == "attr:" + x;
      assert t == "attr:" + y;
      assert x == s[5..] && y == t[5..];
      SameSpelling(a.parent, b.parent, a.attr + "." + rest, b.attr + "." + more);
      assert a.attr + "." + rest == x[|Spell(a.parent)| + 1..];
      assert b.attr + "." + more == y[|Spell(b.parent)| + 1..];
      FirstDot(a.attr, rest, b.attr, more);
    }
  }

  ghost function Height(k: Key): nat {
    if k.NameKey? then 0 else 1 + Height(k.parent)
  }

  lemma FirstDot(a: string, rest: string, b: string, more: string)
    requires '.' !in a && '.' !in b
    requires a + "." + rest == b + "." + more
    ensures a == b
  {
    var s, t := a + "." + rest, b + "." + more;
    assert s[|a|] == '.' && t[|b|] == '.';
    assert a == s[..|a|] && b == t[..|b|];
  }
}
