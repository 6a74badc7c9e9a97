/**
 * Character classes and string helpers with Python's meaning: str.strip,
 * str.endswith, and the decimal fields a strptime pattern reads.
 */
module Text {

  /**
   * Python's whitespace (str.isspace, and \s in a str regular expression):
   * the ASCII controls 9 to 13 and 28 to 31, the space, U+0085, U+00A0,
   * U+1680, U+2000 to U+200A, U+2028, U+2029, U+202F, U+205F and U+3000.
   */
  predicate IsSpace(c: char) {
    || '\t' <= c <= '\r'
    || '\U{1c}' <= c <= ' '
    || c == '\U{85}' || c == '\U{a0}' || c == '\U{1680}'
    || '\U{2000}' <= c <= '\U{200a}'
    || c == '\U{2028}' || c == '\U{2029}' || c == '\U{202f}' || c == '\U{205f}' || c == '\U{3000}'
  }

  predicate AllSpace(s: string) {
    forall k :: 0 <= k < |s| ==> IsSpace(s[k])
  }

  /** No whitespace at either end. */
  predicate Trimmed(s: string) {
    s == [] || (!IsSpace(s[0]) && !IsSpace(s[|s| - 1]))
  }

  /** s without its leading whitespace. */
  function TrimStart(s: string): (r: string)
    ensures |r| <= |s| && r == s[|s| - |r|..]
    ensures AllSpace(s[..|s| - |r|])
    ensures r == [] || !IsSpace(r[0])
  {
    if s != [] && IsSpace(s[0]) then
      var r := TrimStart(s[1..]);
      TrimStartStep(s, r);
      r
    else s
  }

  /** One leading whitespace character more in front of what TrimStart removed. */
  lemma TrimStartStep(s: string, r: string)
    requires s != [] && IsSpace(s[0])
    requires |r| <= |s| - 1 && r == s[1..][|s| - 1 - |r|..] && AllSpace(s[1..][..|s| - 1 - |r|])
    ensures r == s[|s| - |r|..] && AllSpace(s[..|s| - |r|])
  {
    var t := s[1..][..|s| - 1 - |r|];
    var cut := s[..|s| - |r|];
    forall k | 0 <= k < |cut|
      ensures IsSpace(cut[k])
    {
      if k > 0 {
        assert cut[k] == t[k - 1];
      }
    }
  }

  /** s without its trailing whitespace. */
  function TrimEnd(s: string): (r: string)
    ensures |r| <= |s| && r == s[..|r|]
    ensures AllSpace(s[|r|..])
    ensures r == [] || !IsSpace(r[|r| - 1])
  {
    if s != [] && IsSpace(s[|s| - 1]) then
      var r := TrimEnd(s[..|s| - 1]);
      TrimEndStep(s, r);
      r
    else s
  }

  /** One trailing whitespace character more after what TrimEnd removed. */
  lemma TrimEndStep(s: string, r: string)
    requires s != [] && IsSpace(s[|s| - 1])
    requires |r| <= |s| - 1 && r == s[..|s| - 1][..|r|] && AllSpace(s[..|s| - 1][|r|..])
    ensures r == s[..|r|] && AllSpace(s[|r|..])
  {
    var t := s[..|s| - 1][|r|..];
    forall k | 0 <= k < |s| - |r|
      ensures IsSpace(s[|r|..][k])
    {
      if k < |t| {
        assert s[|r|..][k] == t[k];
      }
    }
  }

  /** Python's str.strip() with no argument. */
  function Strip(s: string): (r: string)
    ensures Trimmed(r)
  {
    TrimEnd(TrimStart(s))
  }

  lemma {:induction false} TrimStartSkipsSpace(p: string, x: string)
    requires AllSpace(p)
    ensures TrimStart(p + x) == TrimStart(x)
    decreases |p|
  {
    if p != [] {
      assert (p + x)[0] == p[0] && IsSpace(p[0]);
      assert (p + x)[1..] == p[1..] + x;
      TrimStartSkipsSpace(p[1..], x);
    } else {
      assert p + x == x;
    }
  }

  lemma {:induction false} TrimEndSkipsSpace(x: string, q: string)
    requires AllSpace(q)
    ensures TrimEnd(x + q) == TrimEnd(x)
    decreases |q|
  {
    if q != [] {
      assert (x + q)[|x + q| - 1] == q[|q| - 1] && IsSpace(q[|q| - 1]);
      assert (x + q)[..|x + q| - 1] == x + q[..|q| - 1];
      TrimEndSkipsSpace(x, q[..|q| - 1]);
    } else {
      assert x + q == x;
    }
  }

  /**
   * Strip removes exactly the whitespace around a name: whatever whitespace
   * surrounds a trimmed w, stripping gives back w.
   */
  /** A trimmed word padded with whitespace on the right strips back to itself. */
  lemma StripRight(w: string, q: string)
    requires AllSpace(q) && Trimmed(w)
    ensures Strip(w + q) == w
  {
    StripSurrounded([], w, q);
    assert [] + w + q == w + q;
  }

  lemma StripSurrounded(p: string, w: string, q: string)
    requires AllSpace(p) && AllSpace(q) && Trimmed(w)
    ensures Strip(p + w + q) == w
  {
    assert p + w + q == p + (w + q);
    TrimStartSkipsSpace(p, w + q);
    if w == [] {
      assert w + q == q + [];
      TrimStartSkipsSpace(q, []);
      assert TrimStart(w + q) == [];
    } else {
      assert (w + q)[0] == w[0];
      assert TrimStart(w + q) == w + q;
      TrimEndSkipsSpace(w, q);
      assert TrimEnd(w) == w;
    }
  }

  /** Stripping twice is stripping once. */
  lemma StripIdempotent(s: string)
    ensures Strip(Strip(s)) == Strip(s)
  {
    var r := Strip(s);
    StripSurrounded([], r, []);
    assert [] + r + [] == r;
  }

  /** Python's str.endswith(suffix): case-sensitive, no separator implied. */
  predicate EndsWith(s: string, suffix: string): (b: bool)
    ensures b <==> exists p :: s == p + suffix
  {
    SuffixSplit(s, suffix);
    |suffix| <= |s| && s[|s| - |suffix|..] == suffix
  }

  /** s ends with suffix exactly when s is some text followed by suffix. */
  lemma SuffixSplit(s: string, suffix: string)
    ensures (|suffix| <= |s| && s[|s| - |suffix|..] == suffix) <==> exists p :: s == p + suffix
  {
    if |suffix| <= |s| && s[|s| - |suffix|..] == suffix {
      assert s == s[..|s| - |suffix|] + suffix;
    }
    forall p | s == p + suffix
      ensures |suffix| <= |s| && s[|s| - |suffix|..] == suffix
    {
      assert s[|p|..] == suffix;
    }
  }

  predicate IsDigit(c: char) {
    '0' <= c <= '9'
  }

  predicate AllDigits(s: string) {
    forall k :: 0 <= k < |s| ==> IsDigit(s[k])
  }

  function DigitValue(c: char): int
    requires IsDigit(c)
  {
    c as int - '0' as int
  }

  function DigitChar(v: int): (c: char)
    requires 0 <= v < 10
    ensures IsDigit(c) && DigitValue(c) == v
  {
    ('0' as int + v) as char
  }

  /** The value of a string of decimal digits, most significant first. */
  function NatOf(s: string): nat
    requires AllDigits(s)
  {
    if s == [] then 0 else 10 * NatOf(s[..|s| - 1]) + DigitValue(s[|s| - 1])
  }

  function Pow10(n: nat): (p: nat)
    ensures p >= 1
  {
    if n == 0 then 1 else 10 * Pow10(n - 1)
  }

  /** n digits write a number below 10^n. */
  lemma {:induction false} NatOfBound(s: string)
    requires AllDigits(s)
    ensures NatOf(s) < Pow10(|s|)
    decreases |s|
  {
    if s != [] {
      NatOfBound(s[..|s| - 1]);
    }
  }

  /** Number of leading ASCII digits of s, reading at most max of them. */
  function DigitRun(s: string, max: nat): (k: nat)
    ensures k <= max && k <= |s| && AllDigits(s[..k])
    ensures k < max && k < |s| ==> !IsDigit(s[k])
  {
    if max == 0 || s == [] || !IsDigit(s[0]) then 0
    else
      assert s[..1 + DigitRun(s[1..], max - 1)] == s[..1] + s[1..][..DigitRun(s[1..], max - 1)];
      1 + DigitRun(s[1..], max - 1)
  }

  /** A run of digits followed by a non-digit (or the end) is read whole. */
  lemma {:induction false} DigitRunOf(ds: string, rest: string, max: nat)
    requires AllDigits(ds) && |ds| <= max
    requires |ds| < max && rest != [] ==> !IsDigit(rest[0])
    ensures DigitRun(ds + rest, max) == |ds|
    decreases |ds|
  {
    if ds != [] {
      assert (ds + rest)[1..] == ds[1..] + rest;
      DigitRunOf(ds[1..], rest, max - 1);
    }
  }

  /** v written with exactly two digits, zero-padded. */
  function Pad2(v: int): (s: string)
    requires 0 <= v < 100
    ensures |s| == 2 && AllDigits(s)
  {
    [DigitChar(v / 10), DigitChar(v % 10)]
  }

  /** v written with exactly four digits, zero-padded. */
  function Pad4(v: int): (s: string)
    requires 0 <= v < 10000
    ensures |s| == 4 && AllDigits(s)
  {
    [DigitChar(v / 1000), DigitChar(v / 100 % 10), DigitChar(v / 10 % 10), DigitChar(v % 10)]
  }

  lemma Pad2Value(v: int)
    requires 0 <= v < 100
    ensures NatOf(Pad2(v)) == v
  {
    var s := Pad2(v);
    assert s[..1][..0] == [];
    assert NatOf(s[..1]) == v / 10;
  }

  lemma Pad4Value(v: int)
    requires 0 <= v < 10000
    ensures NatOf(Pad4(v)) == v
  {
    var s := Pad4(v);
    FourDigits(s);
    FourPlaces(v);
  }

  /** The four decimal places of a number below 10000 add back up to it. */
  lemma FourPlaces(v: int)
    requires 0 <= v < 10000
    ensures 1000 * (v / 1000) + 100 * (v / 100 % 10) + 10 * (v / 10 % 10) + v % 10 == v
  {
    var q1, q2, q3 := v / 10, v / 100, v / 1000;
    assert 10 * q1 <= v < 10 * q1 + 10;
    assert 100 * q2 <= v < 100 * q2 + 100;
    assert 1000 * q3 <= v < 1000 * q3 + 1000;
    assert q1 / 10 == q2;
    assert q2 / 10 == q3;
  }

  /** Four digits read as thousands, hundreds, tens and units. */
  lemma FourDigits(s: string)
    requires |s| == 4 && AllDigits(s)
    ensures NatOf(s) == 1000 * DigitValue(s[0]) + 100 * DigitValue(s[1]) + 10 * DigitValue(s[2]) + DigitValue(s[3])
  {
    NatOfPrefix(s, 1);
    NatOfPrefix(s, 2);
    NatOfPrefix(s, 3);
    NatOfPrefix(s, 4);
    assert s[..0] == [];
    assert s[..4] == s;
  }

  /** Reading one more digit of s multiplies what was read by ten and adds it. */
  lemma NatOfPrefix(s: string, k: int)
    requires AllDigits(s) && 0 < k <= |s|
    ensures NatOf(s[..k]) == 10 * NatOf(s[..k - 1]) + DigitValue(s[k - 1])
  {
    assert s[..k][..k - 1] == s[..k - 1];
  }
}
