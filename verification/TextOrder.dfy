/** Python's order of strings, least elements, and sorted lists of distinct strings. */
module TextOrder {
  predicate Less(a: string, b: string) {
    b != "" && (a == "" || a[0] < b[0] || (a[0] == b[0] && Less(a[1..], b[1..])))
  }

  /** The texts agree on their first `k` characters, and then `a` ends or has the smaller one. */
  ghost predicate DecidedAt(a: string, b: string, k: nat) {
    k <= |a| && k < |b| && a[..k] == b[..k] && (k == |a| || a[k] < b[k])
  }

  /** The order is decided by the first difference. */
  lemma {:induction false} LessMeans(a: string, b: string)
    ensures Less(a, b) <==> exists k :: DecidedAt(a, b, k)
  {
    if b != "" {
      assert DecidedAt(a, b, 0) <==> a == "" || a[0] < b[0];
      if a != "" && a[0] == b[0] {
        LessMeans(a[1..], b[1..]);
        forall k: nat ensures DecidedAt(a[1..], b[1..], k) <==> DecidedAt(a, b, k + 1) {
          if k < |a| && k < |b| {
            assert a[..k + 1] == [a[0]] + a[1..][..k] && b[..k + 1] == [b[0]] + b[1..][..k];
            assert a[1..][..k] == a[..k + 1][1..] && b[1..][..k] == b[..k + 1][1..];
          }
        }
        if k: nat :| DecidedAt(a, b, k) {
          assert DecidedAt(a[1..], b[1..], k - 1);
        }
      } else if a != "" {
        assert forall k: nat :: 0 < k <= |a| && k < |b| ==> a[..k][0] == a[0] && b[..k][0] == b[0];
      }
    }
  }

  lemma {:induction false} Irreflexive(a: string)
    ensures !Less(a, a)
  {
    if a != "" {
      Irreflexive(a[1..]);
    }
  }

  lemma {:induction false} Transitive(a: string, b: string, c: string)
    requires Less(a, b) && Less(b, c)
    ensures Less(a, c)
  {
    if a != "" && a[0] == b[0] == c[0] {
      Transitive(a[1..], b[1..], c[1..]);
    }
  }

  lemma {:induction false} Total(a: string, b: string)
    ensures a == b || Less(a, b) || Less(b, a)
  {
    if a != "" && b != "" && a[0] == b[0] {
      Total(a[1..], b[1..]);
      assert a == [a[0]] + a[1..] && b == [b[0]] + b[1..];
    }
  }

  ghost predicate IsLeast(s: set<string>, x: string) {
    x in s && forall y :: y in s ==> !Less(y, x)
  }

  lemma LeastIsUnique(s: set<string>, x: string, y: string)
    requires IsLeast(s, x) && IsLeast(s, y)
    ensures x == y
  {
    Total(x, y);
  }

  /** `min(texts)` */
  method LeastOf(texts: seq<string>) returns (least: string)
    requires texts != []
    ensures IsLeast((set t | t in texts), least)
  {
    least := texts[0];
    Irreflexive(least);
    for i := 1 to |texts|
      invariant least in texts
      invariant forall k :: 0 <= k < i ==> !Less(texts[k], least)
    {
      if Less(texts[i], least) {
        forall k | 0 <= k < i ensures !Less(texts[k], texts[i]) {
          if Less(texts[k], texts[i]) {
            Transitive(texts[k], texts[i], least);
          }
        }
        least := texts[i];
        Irreflexive(least);
      }
    }
  }
}
