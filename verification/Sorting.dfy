/** The maximum of a set of numbers and its members in ascending order: what Python's
    `max(..., default=0)` and `sorted(...)` return for distinct numbers. */
module Sorting {
  import opened Prelude

  lemma {:induction false} MaximumExists(s: set<nat>) returns (m: nat)
    requires s != {}
    ensures m in s && forall x :: x in s ==> x <= m
  {
    var y :| y in s;
    var rest := s - {y};
    m := y;
    if rest != {} {
      m := MaximumExists(rest);
      m := if m < y then y else m;
    }
    forall x | x in s ensures x <= m {
      assert x == y || x in rest;
    }
  }

  /** The greatest member, 0 if there is none. */
  ghost function Maximum(s: set<nat>): (m: nat)
    ensures s != {} ==> m in s
    ensures forall x :: x in s ==> x <= m
    ensures s == {} ==> m == 0
  {
    if s == {} then 0
    else
      assert exists m :: m in s && forall x :: x in s ==> x <= m by { var top := MaximumExists(s); }
      var m :| m in s && forall x :: x in s ==> x <= m; m
  }

  ghost predicate Ascending(keys: seq<nat>) {
    forall i, j :: 0 <= i < j < |keys| ==> keys[i] < keys[j]
  }

  lemma AscendingWith(keys: seq<nat>, m: nat)
    requires Ascending(keys) && forall x :: x in keys ==> x < m
    ensures Ascending(keys + [m])
    ensures forall x :: x in keys + [m] <==> x in keys || x == m
  {
    forall i, j | 0 <= i < j < |keys + [m]| ensures (keys + [m])[i] < (keys + [m])[j] {
      if j == |keys| { assert keys[i] in keys; }
    }
  }

  lemma SortedKeysStep(s: set<nat>)
    requires s != {}
    ensures SortedKeys(s) == SortedKeys(s - {Maximum(s)}) + [Maximum(s)]
  {
    hide Maximum;
  }

  ghost function SortedKeys(s: set<nat>): (keys: seq<nat>)
    ensures Ascending(keys)
    ensures forall x :: x in keys <==> x in s
    ensures |keys| == |s|
  {
    if s == {} then []
    else
      var m := Maximum(s);
      var init := SortedKeys(s - {m});
      AscendingWith(init, m);
      init + [m]
  }

  lemma BelowTheLast(a: seq<nat>, last: nat)
    requires Ascending(a + [last])
    ensures Ascending(a)
    ensures forall x :: x in a ==> x < last
    ensures forall x :: x in a + [last] <==> x in a || x == last
  {
    forall i, j | 0 <= i < j < |a| ensures a[i] < a[j] {
      assert (a + [last])[i] < (a + [last])[j];
    }
    forall i | 0 <= i < |a| ensures a[i] < last {
      assert (a + [last])[i] < (a + [last])[|a|];
    }
  }

  lemma SameLast(a: seq<nat>, la: nat, b: seq<nat>, lb: nat)
    requires Ascending(a + [la]) && Ascending(b + [lb]) && forall x :: x in a + [la] <==> x in b + [lb]
    ensures la == lb && Ascending(a) && Ascending(b)
    ensures forall x :: x in a <==> x in b
  {
    hide Ascending;
    BelowTheLast(a, la);
    BelowTheLast(b, lb);
    assert la in a + [la] && lb in b + [lb];
    forall x ensures x in a <==> x in b {
      assert x in a + [la] <==> x in b + [lb];
    }
  }

  lemma {:induction false} SortedIsUnique(a: seq<nat>, b: seq<nat>)
    requires Ascending(a) && Ascending(b) && forall x :: x in a <==> x in b
    ensures a == b
  {
    hide Ascending;
    if a == [] {
      FirstIsMember(b);
    } else if b == [] {
      FirstIsMember(a);
    } else {
      var a', b' := a[..|a| - 1], b[..|b| - 1];
      assert a == a' + [a[|a| - 1]] && b == b' + [b[|b| - 1]];
      SameLast(a', a[|a| - 1], b', b[|b| - 1]);
      SortedIsUnique(a', b');
    }
  }

  method MaximumOf(s: set<nat>) returns (m: nat)
    ensures m == Maximum(s)
  {
    m := 0;
    var todo := s;
    while todo != {}
      invariant todo <= s
      invariant forall x :: x in s - todo ==> x <= m
      invariant m == 0 || m in s - todo
      decreases todo
    {
      var x :| x in todo;
      assert s - (todo - {x}) == (s - todo) + {x};
      todo := todo - {x};
      m := if x > m then x else m;
    }
    assert s - todo == s;
  }

  /** `sorted(keys)` */
  method Sorted(s: set<nat>) returns (keys: seq<nat>)
    ensures keys == SortedKeys(s)
  {
    hide SortedKeys, Maximum, Ascending;
    keys := [];
    var todo := s;
    while todo != {}
      invariant SortedKeys(s) == SortedKeys(todo) + keys
      decreases todo
    {
      var m := MaximumOf(todo);
      SortedKeysStep(todo);
      keys := [m] + keys;
      todo := todo - {m};
    }
    NoKeys();
  }

  lemma NoKeys()
    ensures SortedKeys({}) == []
  {
  }
}
