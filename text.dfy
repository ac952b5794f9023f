// String primitives shared by the slug codec, the road parser and the views:
// JavaScript's whitespace class, ASCII case mapping, `trim`, `startsWith`,
// and decimal rendering of integers.

module Text {

  /** The characters matched by `\s` in a JavaScript regular expression,
      which are also the ones `String.prototype.trim` removes. */
  predicate IsSpace(c: char) {
    var n := c as int;
    (9 <= n <= 13) || n == 32 || n == 0xA0 || n == 0x1680 ||
    (0x2000 <= n <= 0x200A) || n == 0x2028 || n == 0x2029 ||
    n == 0x202F || n == 0x205F || n == 0x3000 || n == 0xFEFF
  }

  predicate IsDigit(c: char) { '0' <= c <= '9' }

  predicate IsUpper(c: char) { 'A' <= c <= 'Z' }

  predicate IsLower(c: char) { 'a' <= c <= 'z' }

  /** `toLowerCase` on one character, restricted to ASCII. */
  function LowerChar(c: char): (r: char)
    ensures !IsUpper(r)
    ensures IsUpper(c) ==> IsLower(r) && r as int == c as int + 32
    ensures !IsUpper(c) ==> r == c
  {
    if IsUpper(c) then (c as int + 32) as char else c
  }

  /** `toLowerCase` restricted to ASCII letters. */
  function Lower(s: string): (r: string)
    ensures |r| == |s|
    ensures forall i {:trigger r[i]} :: 0 <= i < |s| ==> r[i] == LowerChar(s[i])
  {
    if s == [] then [] else [LowerChar(s[0])] + Lower(s[1..])
  }

  lemma {:induction false} LowerAppend(a: string, b: string)
    ensures Lower(a + b) == Lower(a) + Lower(b)
  {
    if a != [] {
      assert (a + b)[1..] == a[1..] + b;
      LowerAppend(a[1..], b);
    }
  }

  /** Lower-casing twice is lower-casing once. */
  lemma LowerIdempotent(s: string)
    ensures Lower(Lower(s)) == Lower(s)
  {
  }

  /** A capitalised word lower-cases to the word with a small initial. */
  lemma LowerCapitalised(s: string, t: string)
    requires |s| == |t| && |s| > 0
    requires IsUpper(s[0]) && t[0] as int == s[0] as int + 32
    requires forall i :: 1 <= i < |s| ==> !IsUpper(s[i]) && t[i] == s[i]
    ensures Lower(s) == t
  {
    var r := Lower(s);
    assert forall i :: 0 <= i < |s| ==> r[i] == t[i];
  }

  /** The end of the whitespace run starting at `i`. */
  function SpaceRunEnd(s: string, i: nat): (r: nat)
    requires i <= |s|
    ensures i <= r <= |s|
    ensures forall k :: i <= k < r ==> IsSpace(s[k])
    ensures r < |s| ==> !IsSpace(s[r])
    decreases |s| - i
  {
    if i < |s| && IsSpace(s[i]) then SpaceRunEnd(s, i + 1) else i
  }

  /** The start of the whitespace run ending at `j`, going no lower than `lo`. */
  function SpaceRunStart(s: string, lo: nat, j: nat): (r: nat)
    requires lo <= j <= |s|
    ensures lo <= r <= j
    ensures forall k :: r <= k < j ==> IsSpace(s[k])
    ensures r > lo ==> !IsSpace(s[r - 1])
  {
    if j > lo && IsSpace(s[j - 1]) then SpaceRunStart(s, lo, j - 1) else j
  }

  predicate AllSpace(s: string) {
    forall k :: 0 <= k < |s| ==> IsSpace(s[k])
  }

  /** `String.prototype.trim`: the longest substring that neither starts
      nor ends with whitespace, all that is cut off being whitespace. */
  function Trim(s: string): (r: string)
    ensures |r| <= |s|
    ensures exists i | 0 <= i <= |s| - |r| ::
      s[i..i + |r|] == r && AllSpace(s[..i]) && AllSpace(s[i + |r|..])
    ensures r != [] ==> !IsSpace(r[0]) && !IsSpace(r[|r| - 1])
  {
    var i := SpaceRunEnd(s, 0);
    var j := SpaceRunStart(s, i, |s|);
    TrimSlice(s, i, j);
    s[i..j]
  }

  /** `s[i..j]` is `s` with whitespace cut off both ends. */
  lemma TrimSlice(s: string, i: nat, j: nat)
    requires i <= j <= |s|
    requires forall k :: 0 <= k < i ==> IsSpace(s[k])
    requires forall k :: j <= k < |s| ==> IsSpace(s[k])
    requires i < |s| ==> !IsSpace(s[i])
    requires j > i ==> !IsSpace(s[j - 1])
    ensures var r := s[i..j];
      exists n | 0 <= n <= |s| - |r| :: s[n..n + |r|] == r && AllSpace(s[..n]) && AllSpace(s[n + |r|..])
    ensures var r := s[i..j];
      r != [] ==> !IsSpace(r[0]) && !IsSpace(r[|r| - 1])
  {
    if i < j {
      assert s[i..j][0] == s[i] && s[i..j][j - i - 1] == s[j - 1];
    }
    assert AllSpace(s[..i]) by {
      forall k | 0 <= k < i ensures IsSpace(s[..i][k]) { assert s[..i][k] == s[k]; }
    }
    assert AllSpace(s[j..]) by {
      forall k | 0 <= k < |s| - j ensures IsSpace(s[j..][k]) { assert s[j..][k] == s[j + k]; }
    }
    assert i + |s[i..j]| == j;
  }

  /** A string that neither starts nor ends with whitespace. */
  predicate IsTrimmed(s: string) {
    s != [] ==> !IsSpace(s[0]) && !IsSpace(s[|s| - 1])
  }

  lemma TrimOfTrimmed(s: string)
    requires IsTrimmed(s)
    ensures Trim(s) == s
  {
  }

  function StartsWith(s: string, p: string): bool {
    |p| <= |s| && s[..|p|] == p
  }

  function DigitChar(d: nat): (c: char)
    requires d < 10
    ensures IsDigit(c) && c as int - '0' as int == d
  {
    ('0' as int + d) as char
  }

  /** Decimal digits of `n`, as `${n}` prints a non-negative integer. */
  function NatToString(n: nat): (r: string)
    ensures r != [] && forall i :: 0 <= i < |r| ==> IsDigit(r[i])
    ensures |r| > 1 ==> r[0] != '0'
  {
    if n < 10 then [DigitChar(n)] else NatToString(n / 10) + [DigitChar(n % 10)]
  }

  function DigitOf(c: char): (d: nat)
    requires IsDigit(c)
    ensures d < 10
  {
    c as int - '0' as int
  }

  /** The value of a string of decimal digits. */
  function DigitsValue(s: string): nat
    requires forall i :: 0 <= i < |s| ==> IsDigit(s[i])
  {
    if s == [] then 0
    else DigitsValue(s[..|s| - 1]) * 10 + DigitOf(s[|s| - 1])
  }

  /** Reading back the printed digits gives the number. */
  lemma {:induction false} NatToStringRoundTrip(n: nat)
    ensures DigitsValue(NatToString(n)) == n
  {
    var r := NatToString(n);
    if n >= 10 {
      NatToStringRoundTrip(n / 10);
      assert r[..|r| - 1] == NatToString(n / 10);
    }
  }

  /** The length of the run of decimal digits that `s` starts with. */
  function LeadingDigits(s: string): (n: nat)
    ensures n <= |s|
  {
    if s != [] && IsDigit(s[0]) then 1 + LeadingDigits(s[1..]) else 0
  }

  lemma {:induction false} LeadingDigitsOfNumber(p: string, x: string)
    requires forall i :: 0 <= i < |p| ==> IsDigit(p[i])
    requires x != [] && !IsDigit(x[0])
    ensures LeadingDigits(p + x) == |p|
  {
    if p != [] {
      assert (p + x)[1..] == p[1..] + x;
      LeadingDigitsOfNumber(p[1..], x);
    }
  }

  /** A printed number followed by text that does not start with a digit
      can be split again: equal texts have equal numbers and equal tails. */
  lemma NumberPrefixUnique(m: nat, x: string, n: nat, y: string)
    requires x != [] && !IsDigit(x[0])
    requires y != [] && !IsDigit(y[0])
    requires NatToString(m) + x == NatToString(n) + y
    ensures m == n && x == y
  {
    var p, q := NatToString(m), NatToString(n);
    LeadingDigitsOfNumber(p, x);
    LeadingDigitsOfNumber(q, y);
    assert p == (p + x)[..|p|];
    assert q == (q + y)[..|q|];
    NatToStringRoundTrip(m);
    NatToStringRoundTrip(n);
    assert x == (p + x)[|p|..];
    assert y == (q + y)[|q|..];
  }

  /** Concatenation regrouped. */
  lemma ConcatAssociative<T>(x: seq<T>, y: seq<T>, z: seq<T>)
    ensures x + (y + z) == (x + y) + z
  {
  }

  /** The slices of `s[1..]` in terms of `s`. */
  lemma TailSlices<T>(s: seq<T>, k: nat)
    requires 0 < k <= |s|
    ensures s[1..][k - 1..] == s[k..]
    ensures [s[0]] + s[1..][..k - 1] == s[..k]
  {
  }
}
