/** UTF-8 (section 3 of RFC 3629), and truncation to a number of bytes
    (apps/desktop/api_client.py, `_truncate_utf8_bytes`). */
module Utf8 {
  import opened Prelude

  type byte = b: int | 0 <= b < 256

  function Width(c: char): nat {
    if c < '\U{80}' then 1 else if c < '\U{800}' then 2 else if c < '\U{10000}' then 3 else 4
  }

  function EncodeChar(c: char): (bytes: seq<byte>)
    ensures |bytes| == Width(c)
  {
    var n := c as int;
    match Width(c)
    case 1 => [n]
    case 2 => [0xC0 + n / 64, 0x80 + n % 64]
    case 3 => [0xE0 + n / 4096, 0x80 + n / 64 % 64, 0x80 + n % 64]
    case _ => [0xF0 + n / 262144, 0x80 + n / 4096 % 64, 0x80 + n / 64 % 64, 0x80 + n % 64]
  }

  function Encode(s: string): seq<byte> {
    if s == "" then [] else EncodeChar(s[0]) + Encode(s[1..])
  }

  predicate IsContinuation(b: byte) {
    0x80 <= b < 0xC0
  }

  function Value2(b0: int, b1: int): int {
    (b0 - 0xC0) * 64 + (b1 - 0x80)
  }

  function Value3(b0: int, b1: int, b2: int): int {
    (b0 - 0xE0) * 4096 + (b1 - 0x80) * 64 + (b2 - 0x80)
  }

  function Value4(b0: int, b1: int, b2: int, b3: int): int {
    (b0 - 0xF0) * 262144 + (b1 - 0x80) * 4096 + (b2 - 0x80) * 64 + (b3 - 0x80)
  }

  /** The first character of well-formed bytes, if there is one, and its length. */
  function DecodeFirst(b: seq<byte>): (r: Option<(char, nat)>)
    ensures r.Some? ==> 0 < r.value.1 <= |b|
  {
    if b == [] then None
    else if b[0] < 0x80 then Some((b[0] as char, 1))
    else if 0xC2 <= b[0] < 0xE0 && |b| >= 2 && IsContinuation(b[1]) then
      Some((Value2(b[0], b[1]) as char, 2))
    else if 0xE0 <= b[0] < 0xF0 && |b| >= 3 && IsContinuation(b[1]) && IsContinuation(b[2]) then
      var n := Value3(b[0], b[1], b[2]);
      if 0x800 <= n < 0xD800 || 0xE000 <= n < 0x10000 then Some((n as char, 3)) else None
    else if 0xF0 <= b[0] < 0xF8 && |b| >= 4 && IsContinuation(b[1]) && IsContinuation(b[2]) && IsContinuation(b[3]) then
      var n := Value4(b[0], b[1], b[2], b[3]);
      if 0x10000 <= n < 0x110000 then Some((n as char, 4)) else None
    else None
  }

  /** `bytes.decode("utf-8", errors="ignore")`: bytes that start no character are skipped. */
  function Decode(b: seq<byte>): string {
    if b == [] then ""
    else
      match DecodeFirst(b)
      case None => Decode(b[1..])
      case Some((c, n)) => [c] + Decode(b[n..])
  }

  lemma Values(n: nat)
    requires n < 0x110000
    ensures Value2(0xC0 + n / 64, 0x80 + n % 64) == n
    ensures Value3(0xE0 + n / 4096, 0x80 + n / 64 % 64, 0x80 + n % 64) == n
    ensures Value4(0xF0 + n / 262144, 0x80 + n / 4096 % 64, 0x80 + n / 64 % 64, 0x80 + n % 64) == n
  {
  }

  lemma FirstOfEncoded(c: char, rest: seq<byte>)
    ensures DecodeFirst(EncodeChar(c) + rest) == Some((c, Width(c)))
  {
    hide Value2, Value3, Value4;
    var n := c as int;
    Values(n);
    var bytes := EncodeChar(c) + rest;
    match Width(c)
    case 1 => assert bytes[0] == n;
    case 2 => assert bytes[0] == 0xC0 + n / 64 && bytes[1] == 0x80 + n % 64;
    case 3 => assert bytes[0] == 0xE0 + n / 4096 && bytes[1] == 0x80 + n / 64 % 64 && bytes[2] == 0x80 + n % 64;
    case _ => assert bytes[0] == 0xF0 + n / 262144 && bytes[1] == 0x80 + n / 4096 % 64 && bytes[2] == 0x80 + n / 64 % 64
      && bytes[3] == 0x80 + n % 64;
  }

  lemma {:induction false} ContinuationsAreIgnored(b: seq<byte>)
    requires forall i :: 0 <= i < |b| ==> IsContinuation(b[i])
    ensures Decode(b) == ""
  {
    hide Value2, Value3, Value4;
    if b != [] {
      ContinuationsAreIgnored(b[1..]);
    }
  }

  lemma PartIsIgnored(c: char, k: nat)
    requires k < Width(c)
    ensures Decode(EncodeChar(c)[..k]) == ""
  {
    hide Value2, Value3, Value4;
    var part := EncodeChar(c)[..k];
    if k > 0 {
      PartStartsNothing(c, k);
      ContinuationsAreIgnored(part[1..]);
    }
  }

  /** Cut short, the bytes of a character are a lead byte that lacks continuations. */
  lemma PartStartsNothing(c: char, k: nat)
    requires 0 < k < Width(c)
    ensures var part := EncodeChar(c)[..k];
      DecodeFirst(part).None? && forall i :: 0 < i < |part| ==> IsContinuation(part[i])
  {
    hide Value2, Value3, Value4;
  }

  /** How many characters fit in `n` bytes. */
  ghost function FitCount(s: string, n: nat): (count: nat)
    ensures count <= |s|
  {
    if s == "" || Width(s[0]) > n then 0 else 1 + FitCount(s[1..], n - Width(s[0]))
  }

  /** Decoding the first `n` bytes gives the characters that fit entirely. */
  lemma {:induction false} DecodePrefix(s: string, n: nat)
    requires n <= |Encode(s)|
    ensures Decode(Encode(s)[..n]) == s[..FitCount(s, n)]
  {
    hide EncodeChar, DecodeFirst;
    if s != "" {
      var c, w := s[0], Width(s[0]);
      var whole := Encode(s);
      assert whole == EncodeChar(c) + Encode(s[1..]);
      if w > n {
        assert whole[..n] == EncodeChar(c)[..n];
        PartIsIgnored(c, n);
      } else {
        var rest := Encode(s[1..])[..n - w];
        assert whole[..n] == EncodeChar(c) + rest;
        FirstOfEncoded(c, rest);
        assert (EncodeChar(c) + rest)[w..] == rest;
        PositiveWidth(c);
        DecodePrefix(s[1..], n - w);
        assert s[..FitCount(s, n)] == [c] + s[1..][..FitCount(s[1..], n - w)];
      }
    }
  }

  /** One character of each width: U+0041, U+00E9, U+20AC and U+1F600. */
  lemma KnownEncodings()
    ensures EncodeChar('A') == [0x41] && EncodeChar('\U{e9}') == [0xC3, 0xA9]
    ensures EncodeChar('\U{20ac}') == [0xE2, 0x82, 0xAC] && EncodeChar('\U{1f600}') == [0xF0, 0x9F, 0x98, 0x80]
  {
  }

  lemma PositiveWidth(c: char)
    ensures Width(c) > 0
  {
  }

  lemma {:induction false} EncodeConcat(a: string, b: string)
    ensures Encode(a + b) == Encode(a) + Encode(b)
  {
    if a == "" {
      assert a + b == b;
    } else {
      assert (a + b)[1..] == a[1..] + b;
      EncodeConcat(a[1..], b);
    }
  }

  lemma {:induction false} FitCountFits(s: string, n: nat)
    ensures |Encode(s[..FitCount(s, n)])| <= n
    ensures FitCount(s, n) < |s| ==> |Encode(s[..FitCount(s, n) + 1])| > n
  {
    hide EncodeChar;
    if s != "" {
      var c, k := s[0], FitCount(s, n);
      if Width(c) > n {
        assert s[..1][0] == c;
      } else {
        FitCountFits(s[1..], n - Width(c));
        assert s[..k][1..] == s[1..][..k - 1];
        if k < |s| {
          assert s[..k + 1][1..] == s[1..][..k];
        }
      }
    }
  }

  /** `_truncate_utf8_bytes` */
  function Truncate(s: string, max: int): string {
    if max <= 0 then ""
    else if |Encode(s)| <= max then s
    else Decode(Encode(s)[..max])
  }

  /** Truncation keeps the longest prefix of whole characters that fits. */
  lemma TruncateIsLongestPrefix(s: string, max: int)
    requires max >= 0
    ensures Truncate(s, max) <= s && |Encode(Truncate(s, max))| <= max
    ensures forall k :: |Truncate(s, max)| < k <= |s| ==> |Encode(s[..k])| > max
  {
    hide EncodeChar, DecodeFirst;
    var kept := Truncate(s, max);
    if max == 0 {
      assert s[..0] == "";
      if s != "" { PositiveWidth(s[0]); assert s[..1][0] == s[0]; }
    } else if |Encode(s)| > max {
      DecodePrefix(s, max);
      FitCountFits(s, max);
    }
    assert kept == s[..|kept|];
    forall k | |kept| < k <= |s| ensures |Encode(s[..k])| > max {
      var next := s[..|kept| + 1];
      assert s[..k] == next + s[|kept| + 1..k];
      EncodeConcat(next, s[|kept| + 1..k]);
    }
  }
}
