/** Character classes and string operations the OTP routes rely on:
    ASCII decimal digits (`\d` in a JavaScript regular expression without
    the `u` flag), the whitespace that `String.prototype.trim` removes, and
    the decimal rendering `Number.prototype.toString` gives an integer. */
module Text {

  predicate IsDigit(c: char) {
    '0' <= c <= '9'
  }

  predicate AllDigits(s: string) {
    forall i :: 0 <= i < |s| ==> IsDigit(s[i])
  }

  /** ECMAScript WhiteSpace and LineTerminator code points: what `trim` strips. */
  predicate IsJsSpace(c: char) {
    c == '\t' || c == '\n' || c == '\U{000B}' || c == '\U{000C}' || c == '\r' || c == ' '
    || c == '\U{00A0}' || c == '\U{1680}' || ('\U{2000}' <= c <= '\U{200A}')
    || c == '\U{2028}' || c == '\U{2029}' || c == '\U{202F}' || c == '\U{205F}'
    || c == '\U{3000}' || c == '\U{FEFF}'
  }

  predicate AllSpace(s: string) {
    forall i :: 0 <= i < |s| ==> IsJsSpace(s[i])
  }

  /** Neither the first nor the last character is whitespace. */
  predicate NoEdgeSpace(s: string) {
    s == [] || (!IsJsSpace(s[0]) && !IsJsSpace(s[|s| - 1]))
  }

  /** `r` is `s` with its leading and trailing whitespace cut off. */
  ghost predicate IsTrimOf(s: string, r: string) {
    exists lo :: 0 <= lo <= |s| - |r| && AllSpace(s[..lo]) && s[lo..lo + |r|] == r
                 && AllSpace(s[lo + |r|..]) && NoEdgeSpace(r)
  }

  /** How many whitespace characters `s` starts with. */
  function LeadingSpaceCount(s: string): (k: nat)
    ensures k <= |s| && AllSpace(s[..k])
    ensures k < |s| ==> !IsJsSpace(s[k])
  {
    if s != [] && IsJsSpace(s[0]) then
      var k := 1 + LeadingSpaceCount(s[1..]);
      assert s[..k] == [s[0]] + s[1..][..k - 1];
      k
    else 0
  }

  /** How many whitespace characters `s` ends with. */
  function TrailingSpaceCount(s: string): (k: nat)
    ensures k <= |s| && AllSpace(s[|s| - k..])
    ensures k < |s| ==> !IsJsSpace(s[|s| - k - 1])
  {
    if s != [] && IsJsSpace(s[|s| - 1]) then
      var k := 1 + TrailingSpaceCount(s[..|s| - 1]);
      assert s[|s| - k..] == s[..|s| - 1][|s| - k..] + [s[|s| - 1]];
      k
    else 0
  }

  /** `String.prototype.trimStart`. */
  function TrimStart(s: string): string {
    s[LeadingSpaceCount(s)..]
  }

  /** `String.prototype.trimEnd`. */
  function TrimEnd(s: string): string {
    s[..|s| - TrailingSpaceCount(s)]
  }

  /** `String.prototype.trim`. */
  function Trim(s: string): (r: string)
    ensures |r| <= |s| && NoEdgeSpace(r)
  {
    TrimEnd(TrimStart(s))
  }

  /** `Trim(s)` is `s` with its leading and trailing whitespace cut off. */
  lemma TrimCuts(s: string)
    ensures IsTrimOf(s, Trim(s))
  {
    var lo := LeadingSpaceCount(s);
    var t := TrimStart(s);
    var r := TrimEnd(t);
    assert s[lo..lo + |r|] == r;
    assert s[lo + |r|..] == t[|r|..];
  }

  /** A string with no whitespace at either end is its own trim. */
  lemma TrimKeeps(s: string)
    requires NoEdgeSpace(s)
    ensures Trim(s) == s
  {
  }

  lemma {:induction false} LeadingSpaceCountOf(w: string, t: string)
    requires AllSpace(w) && (t == [] || !IsJsSpace(t[0]))
    ensures LeadingSpaceCount(w + t) == |w|
  {
    if w != [] {
      assert (w + t)[1..] == w[1..] + t;
      LeadingSpaceCountOf(w[1..], t);
    }
  }

  lemma {:induction false} TrailingSpaceCountOf(t: string, w: string)
    requires AllSpace(w) && (t == [] || !IsJsSpace(t[|t| - 1]))
    ensures TrailingSpaceCount(t + w) == |w|
  {
    if w != [] {
      assert (t + w)[..|t + w| - 1] == t + w[..|w| - 1];
      TrailingSpaceCountOf(t, w[..|w| - 1]);
    }
  }

  /** `trim` removes exactly the surrounding whitespace: `Trim(lead + t + trail)`
      is `t` whenever `t` has no whitespace at its ends. */
  lemma TrimOf(lead: string, t: string, trail: string)
    requires AllSpace(lead) && AllSpace(trail) && NoEdgeSpace(t)
    ensures Trim(lead + t + trail) == t
  {
    var s := lead + t + trail;
    if t == [] {
      assert AllSpace(lead + trail);
      assert s == (lead + trail) + [];
      LeadingSpaceCountOf(lead + trail, []);
    } else {
      assert s == lead + (t + trail);
      LeadingSpaceCountOf(lead, t + trail);
      assert TrimStart(s) == t + trail;
      TrailingSpaceCountOf(t, trail);
    }
  }

  function DigitChar(d: nat): (c: char)
    requires d < 10
    ensures IsDigit(c)
  {
    ('0' as int + d) as char
  }

  function DigitValue(c: char): (d: nat)
    requires IsDigit(c)
    ensures d < 10 && DigitChar(d) == c
  {
    c as int - '0' as int
  }

  function Pow10(k: nat): (p: nat)
    ensures p >= 1
  {
    if k == 0 then 1 else 10 * Pow10(k - 1)
  }

  lemma {:induction false} Pow10Monotone(i: nat, j: nat)
    ensures i <= j ==> Pow10(i) <= Pow10(j)
  {
    if i < j {
      Pow10Monotone(i, j - 1);
    }
  }

  /** The number a string of decimal digits denotes, most significant digit first. */
  function DecimalValue(s: string): (v: nat)
    requires AllDigits(s)
    ensures v < Pow10(|s|)
  {
    if s == [] then 0 else DecimalValue(s[..|s| - 1]) * 10 + DigitValue(s[|s| - 1])
  }

  /** The decimal text of a natural number, as `Number.prototype.toString` writes
      it for an integer: no sign, no leading zero, and it reads back as `n`. */
  function NatToDecimal(n: nat): (r: string)
    ensures |r| >= 1 && AllDigits(r) && DecimalValue(r) == n
    ensures (r[0] == '0') == (n == 0)
    ensures |r| > 1 ==> Pow10(|r| - 1) <= n
    decreases n
  {
    if n < 10 then [DigitChar(n)]
    else
      var q := NatToDecimal(n / 10);
      var r := q + [DigitChar(n % 10)];
      assert r[..|r| - 1] == q;
      assert |q| > 1 ==> Pow10(|r| - 1) == 10 * Pow10(|q| - 1) <= 10 * (n / 10);
      r
  }

  /** A number with `k` decimal digits is written with exactly `k` characters. */
  lemma NatToDecimalLength(n: nat, k: nat)
    requires 1 <= k && Pow10(k - 1) <= n < Pow10(k)
    ensures |NatToDecimal(n)| == k
  {
    var r := NatToDecimal(n);
    Pow10Monotone(|r|, k - 1);
    Pow10Monotone(k, |r| - 1);
  }
}
