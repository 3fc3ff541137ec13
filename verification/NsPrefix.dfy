/** Session-domain prefixes: decimal segments with a delimiter, and the isolation they give to
    tenants that share one table of glob subscriptions. */
module NsPrefix {
  import opened Bytes
  import opened Glob
  import opened Wrappers
  import Align

  const DELIM: Byte := 58
  const BUF_LEN: nat := 42

  // ------------------------------------------------------------------ encoding

  /** Canonical decimal digits, without leading zeros. */
  function Digits(n: nat): (d: seq<Byte>)
    ensures d != []
  {
    if n < 10 then [48 + n] else Digits(n / 10) + [48 + n % 10]
  }

  function Segment(n: nat): seq<Byte> { Digits(n) + [DELIM] }

  /** The prefix of a domain, segment by segment. */
  function Encode(domain: seq<nat>): seq<Byte> {
    if domain == [] then [] else Segment(domain[0]) + Encode(domain[1..])
  }

  /** The fixed buffer and its used length. */
  datatype Prefix = Prefix(buf: seq<Byte>, len: nat) {
    ghost predicate Valid() { |buf| == BUF_LEN && len <= BUF_LEN }

    function AsSlice(): seq<Byte>
      requires Valid()
    {
      buf[..len]
    }

    /** Writes digits and delimiter behind the used part; two segments is what the buffer holds. */
    function Push(n: U64): (r: Prefix)
      requires Valid() && len + |Digits(n)| + 1 <= BUF_LEN
      ensures r.Valid() && r.AsSlice() == AsSlice() + Segment(n)
    {
      var start := len;
      var end := start + |Digits(n)| + 1;
      Prefix(buf[..start] + Digits(n) + [DELIM] + buf[end..], end)
    }

    function Isolate(raw: seq<Byte>): seq<Byte>
      requires Valid()
    {
      AsSlice() + raw
    }

    function Strip(isolated: seq<Byte>): Option<seq<Byte>>
      requires Valid()
    {
      if AsSlice() <= isolated then Some(isolated[len..]) else None
    }
  }

  function New(ns: U64): (r: Prefix)
    ensures r.Valid() && r.len <= 21 && r.AsSlice() == Encode([ns])
  {
    DigitsFit(ns);
    Prefix(seq(BUF_LEN, _ => 0), 0).Push(ns)
  }

  /** Any second segment fits behind any first one. */
  function Join(p: Prefix, n: U64): (r: Prefix)
    requires p.Valid() && p.len <= 21
    ensures r.Valid() && r.AsSlice() == p.AsSlice() + Encode([n])
  {
    DigitsFit(n);
    p.Push(n)
  }

  function Pow10(k: nat): nat { if k == 0 then 1 else 10 * Pow10(k - 1) }

  lemma {:induction false} DigitsBound(n: nat, k: nat)
    requires n < Pow10(k) && 1 <= k
    ensures |Digits(n)| <= k
  {
    if n >= 10 {
      DigitsBound(n / 10, k - 1);
    }
  }

  lemma DigitsFit(n: U64)
    ensures |Digits(n)| <= 20
  {
    assert Pow10(5) == 100_000;
    assert Pow10(10) == 10_000_000_000 by { assert Pow10(7) == 10_000_000; }
    assert Pow10(15) == 1_000_000_000_000_000 by { assert Pow10(12) == 1_000_000_000_000; }
    assert Pow10(20) == 100_000_000_000_000_000_000 by { assert Pow10(17) == 100_000_000_000_000_000; }
    DigitsBound(n, 20);
  }

  // ------------------------------------------------------------------ unambiguity

  ghost predicate AllDigits(s: seq<Byte>) { forall i :: 0 <= i < |s| ==> 48 <= s[i] <= 57 }

  lemma {:induction false} DigitsAreDigits(n: nat)
    ensures AllDigits(Digits(n))
  {
    if n >= 10 { DigitsAreDigits(n / 10); }
  }

  /** Digit by digit: place i counts the powers of ten behind it, and no number but zero opens with a zero. */
  lemma {:induction false} DigitPlaces(n: nat, i: nat)
    requires i < |Digits(n)|
    ensures Pow10(|Digits(n)| - 1 - i) > 0
    ensures Digits(n)[i] == 48 + n / Pow10(|Digits(n)| - 1 - i) % 10
    ensures n > 0 ==> Digits(n)[0] != 48
  {
    if n >= 10 {
      DigitPlaces(n / 10, if i < |Digits(n)| - 1 then i else 0);
      if i < |Digits(n)| - 1 {
        Align.NestedDivision(n, 10, Pow10(|Digits(n)| - 2 - i));
      }
    }
  }

  /** A prefix is its numbers in decimal, each followed by a colon. */
  lemma SegmentSpelled(n: nat)
    ensures |Segment(n)| == |Digits(n)| + 1 && Segment(n)[..|Digits(n)|] == Digits(n) && Segment(n)[|Digits(n)|] == 58
  {
  }

  function Value(s: seq<Byte>): int {
    if s == [] then 0 else 10 * Value(s[..|s| - 1]) - 48 + s[|s| - 1]
  }

  lemma {:induction false} ValueOfDigits(n: nat)
    ensures Value(Digits(n)) == n
  {
    if n >= 10 {
      ValueOfDigits(n / 10);
      assert Digits(n)[..|Digits(n)| - 1] == Digits(n / 10);
    } else {
      assert Digits(n)[..0] == [];
    }
  }

  /** The delimiter closes a segment, so a segment can only be a prefix of its own text. */
  lemma SegmentSplits(x: nat, u: seq<Byte>, y: nat, v: seq<Byte>)
    ensures Segment(x) + u <= Segment(y) + v <==> x == y && u <= v
  {
    DigitsAreDigits(x);
    DigitsAreDigits(y);
    var l, r := Segment(x) + u, Segment(y) + v;
    var i, j := |Digits(x)|, |Digits(y)|;
    assert l[i] == DELIM && r[j] == DELIM;
    assert forall k :: 0 <= k < i ==> l[k] == Digits(x)[k];
    assert forall k :: 0 <= k < j ==> r[k] == Digits(y)[k];
    if l <= r {
      assert i == j;
      assert Digits(x) == l[..i] == r[..i] == Digits(y);
      ValueOfDigits(x);
      ValueOfDigits(y);
      assert u == l[i + 1..] && v == r[i + 1..];
    }
  }

  /** Exactly when one domain's prefix opens another domain's key, at any depths. */
  lemma {:induction false} PrefixExact(a: seq<nat>, b: seq<nat>, c: seq<Byte>)
    ensures |a| <= |b| ==> (Encode(a) <= Encode(b) + c <==> a <= b)
    ensures |b| <= |a| ==> (Encode(a) <= Encode(b) + c <==> b <= a && Encode(a[|b|..]) <= c)
    decreases |a|
  {
    if a == [] {
      assert |b| == 0 ==> a[0..] == [];
    } else if b == [] {
      assert a[0..] == a && Encode(b) + c == c;
    } else {
      PrefixExact(a[1..], b[1..], c);
      SegmentSplits(a[0], Encode(a[1..]), b[0], Encode(b[1..]) + c);
      assert Encode(b) + c == Segment(b[0]) + (Encode(b[1..]) + c);
      assert a == [a[0]] + a[1..] && b == [b[0]] + b[1..];
      if |b| <= |a| { assert a[1..][|b[1..]|..] == a[|b|..]; }
    }
  }

  /** Stripping undoes isolation in the same domain and refuses every other domain of the same depth. */
  lemma StripInverts(p: Prefix, q: Prefix, a: seq<nat>, b: seq<nat>, raw: seq<Byte>)
    requires p.Valid() && q.Valid() && p.AsSlice() == Encode(a) && q.AsSlice() == Encode(b)
    requires |a| == |b|
    ensures p.Strip(q.Isolate(raw)) == if a == b then Some(raw) else None
  {
    PrefixExact(a, b, raw);
    if a == b {
      assert q.Isolate(raw)[p.len..] == raw;
    }
  }

  /** Depths must agree: a one-segment domain does open the keys of its own two-segment subdomains. */
  lemma SubdomainIsNotSeparated(a: U64, b: U64, raw: seq<Byte>)
    ensures New(a).Strip(Join(New(a), b).Isolate(raw)) == Some(Encode([b]) + raw)
  {
    var key := Join(New(a), b).Isolate(raw);
    assert key == Encode([a]) + (Encode([b]) + raw);
  }

  // ------------------------------------------------------------------ isolation through the matcher

  /** What the matching loop returns, including its special case for an empty text. */
  predicate GlobMatch(pat: seq<Byte>, text: seq<Byte>, nocase: bool) {
    if text == [] then pat == [] else Matches(pat, text, nocase)
  }

  predicate Plain(b: Byte) { 48 <= b <= 58 }

  lemma {:induction false} EncodeIsPlain(domain: seq<nat>)
    ensures forall i :: 0 <= i < |Encode(domain)| ==> Plain(Encode(domain)[i])
  {
    if domain != [] {
      DigitsAreDigits(domain[0]);
      EncodeIsPlain(domain[1..]);
    }
  }

  /** A plain prefix of a pattern matches itself and nothing else. */
  lemma {:induction false} LiteralPrefix(lit: seq<Byte>, pat: seq<Byte>, text: seq<Byte>, nocase: bool)
    requires forall i :: 0 <= i < |lit| ==> Plain(lit[i])
    ensures Matches(lit + pat, text, nocase) <==> lit <= text && Matches(pat, text[|lit|..], nocase)
  {
    if lit == [] {
      assert lit + pat == pat && text[0..] == text;
    } else {
      var whole := lit + pat;
      assert whole[0] == lit[0] && whole[1..] == lit[1..] + pat;
      if text != [] {
        LiteralPrefix(lit[1..], pat, text[1..], nocase);
        assert lit <= text <==> lit[0] == text[0] && lit[1..] <= text[1..];
        if lit <= text { assert text[|lit|..] == text[1..][|lit| - 1..]; }
      }
    }
  }

  lemma IsolatedMatch(a: seq<nat>, b: seq<nat>, pat: seq<Byte>, text: seq<Byte>, nocase: bool)
    requires |a| == |b|
    ensures Matches(Encode(a) + pat, Encode(b) + text, nocase) <==> a == b && Matches(pat, text, nocase)
  {
    EncodeIsPlain(a);
    LiteralPrefix(Encode(a), pat, Encode(b) + text, nocase);
    PrefixExact(a, b, text);
    if a == b {
      assert (Encode(b) + text)[|Encode(a)|..] == text;
    }
  }

  /** Tenants of the same depth never see each other's channels, and see their own as without prefixes. */
  lemma TenantIsolation(p: Prefix, q: Prefix, a: seq<nat>, b: seq<nat>, pat: seq<Byte>, channel: seq<Byte>, nocase: bool)
    requires p.Valid() && q.Valid() && p.AsSlice() == Encode(a) && q.AsSlice() == Encode(b) && |a| == |b|
    ensures a != b ==> !GlobMatch(p.Isolate(pat), q.Isolate(channel), nocase)
    ensures channel != [] ==>
              (GlobMatch(p.Isolate(pat), q.Isolate(channel), nocase) <==> a == b && GlobMatch(pat, channel, nocase))
  {
    IsolatedMatch(a, b, pat, channel, nocase);
    if a == [] {
      assert Encode(a) + pat == pat && Encode(b) + channel == channel;
    }
  }

  /** The matching loop itself, run on an isolated pattern and an isolated channel. */
  method MatchIsolated(p: Prefix, q: Prefix, ghost a: seq<nat>, ghost b: seq<nat>,
                       pat: seq<Byte>, channel: seq<Byte>, nocase: bool) returns (r: bool)
    requires p.Valid() && q.Valid() && p.AsSlice() == Encode(a) && q.AsSlice() == Encode(b) && |a| == |b|
    ensures a != b ==> !r
    ensures channel != [] ==> (r <==> a == b && Matches(pat, channel, nocase))
    ensures channel == [] && a != [] ==> (r <==> a == b && forall i :: 0 <= i < |pat| ==> pat[i] == STAR)
  {
    r := GlobMatchOpt(p.Isolate(pat), q.Isolate(channel), nocase);
    TenantIsolation(p, q, a, b, pat, channel, nocase);
    IsolatedMatch(a, b, pat, channel, nocase);
    assert pat[0..] == pat;
    OnlyStarsLeft(pat, 0, [], nocase);
  }

  /** The empty channel is the one exception: there the prefix changes the answer exactly for a
      non-empty pattern of stars. */
  lemma EmptyChannelException(a: seq<nat>, pat: seq<Byte>, nocase: bool)
    requires a != []
    ensures GlobMatch(Encode(a) + pat, Encode(a) + [], nocase) != GlobMatch(pat, [], nocase)
       <==> pat != [] && forall i :: 0 <= i < |pat| ==> pat[i] == STAR
  {
    IsolatedMatch(a, a, pat, [], nocase);
    assert pat[0..] == pat;
    OnlyStarsLeft(pat, 0, [], nocase);
  }
}
