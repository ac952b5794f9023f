// Road-code tokens in a road description (src/lib/api/roadDisruptions.ts):
// the regular expression `\[([AM])(\d+[A-Z]*)\]` written out as a scanner
// over the string, and `parseRoadCodes`, the `exec` loop that collects every
// match into a list of parsed roads.

module RoadCodes {
  import opened Text
  import opened JsValues

  /** The `type` field of a parsed road. */
  datatype RoadKind = A | M | Street

  /** How a road kind prints in a template literal. */
  function KindName(k: RoadKind): (r: string)
    ensures k == A ==> r == "A"
    ensures k == M ==> r == "M"
    ensures k == Street ==> r == "Street"
  {
    match k
    case A => "A"
    case M => "M"
    case Street => "Street"
  }

  /** `{ type, number, fullCode }` as pushed by `parseRoadCodes`. */
  datatype ParsedRoad = ParsedRoad(kind: RoadKind, number: string, fullCode: string)

  /** The two character classes of the road-number group. */
  datatype CharClass = Digits | Uppers

  predicate In(c: char, p: CharClass) {
    match p
    case Digits => IsDigit(c)
    case Uppers => IsUpper(c)
  }

  /** The end of the run of characters of class `p` starting at `i`. */
  function RunEnd(s: string, i: nat, p: CharClass): (r: nat)
    requires i <= |s|
    ensures i <= r <= |s|
    ensures forall k :: i <= k < r ==> In(s[k], p)
    ensures r < |s| ==> !In(s[r], p)
    decreases |s| - i
  {
    if i < |s| && In(s[i], p) then RunEnd(s, i + 1, p) else i
  }

  /** A road number as the capture group `\d+[A-Z]*` accepts it. */
  predicate IsRoadNumber(n: string) {
    var d := RunEnd(n, 0, Digits);
    d > 0 && forall k :: d <= k < |n| ==> IsUpper(n[k])
  }

  /** The letter of an A or M road. */
  function KindOf(c: char): RoadKind {
    if c == 'M' then M else A
  }

  /** The regular expression matches at position `i`: an opening bracket,
      `A` or `M`, a maximal digit run, a maximal upper-case run, and a
      closing bracket.  The two runs are disjoint character classes, so a
      match can only use maximal runs: there is nothing to backtrack into. */
  predicate MatchAt(s: string, i: nat) {
    && i + 2 < |s|
    && s[i] == '['
    && (s[i + 1] == 'A' || s[i + 1] == 'M')
    && var d := RunEnd(s, i + 2, Digits);
    && d > i + 2
    && var u := RunEnd(s, d, Uppers);
    && u < |s| && s[u] == ']'
  }

  /** The position just past the closing bracket of the match at `i`. */
  function MatchEnd(s: string, i: nat): (e: nat)
    requires MatchAt(s, i)
    ensures i + 4 <= e <= |s| && s[e - 1] == ']'
  {
    RunEnd(s, RunEnd(s, i + 2, Digits), Uppers) + 1
  }

  /** The parsed road for the match at `i`. */
  function RoadAt(s: string, i: nat): ParsedRoad
    requires MatchAt(s, i)
  {
    var e := MatchEnd(s, i);
    ParsedRoad(KindOf(s[i + 1]), s[i + 2..e - 1], s[i..e])
  }

  /** A road as `parseRoadCodes` produces it: an A or M road whose number
      fits `\d+[A-Z]*` and whose full code is `[` type number `]`. */
  predicate WellFormedRoad(r: ParsedRoad) {
    && (r.kind == A || r.kind == M)
    && IsRoadNumber(r.number)
    && r.fullCode == "[" + KindName(r.kind) + r.number + "]"
  }

  /** The number captured by a match fits `\d+[A-Z]*`. */
  lemma MatchedNumber(s: string, i: nat)
    requires MatchAt(s, i)
    ensures IsRoadNumber(s[i + 2..MatchEnd(s, i) - 1])
  {
    var d := RunEnd(s, i + 2, Digits);
    var e := MatchEnd(s, i);
    var n := s[i + 2..e - 1];
    RunEndShift(s, i + 2, e - 1, 0, Digits);
    forall k | d - i - 2 <= k < |n|
      ensures IsUpper(n[k])
    {
      assert n[k] == s[i + 2 + k];
    }
  }

  /** Every match yields a well-formed road whose full code is exactly the
      matched text. */
  lemma RoadAtWellFormed(s: string, i: nat)
    requires MatchAt(s, i)
    ensures WellFormedRoad(RoadAt(s, i))
    ensures RoadAt(s, i).fullCode == s[i..MatchEnd(s, i)]
  {
    var e := MatchEnd(s, i);
    var n := s[i + 2..e - 1];
    MatchedNumber(s, i);
    assert s[i..e] == [s[i]] + [s[i + 1]] + n + [s[e - 1]];
    assert [s[i + 1]] == KindName(KindOf(s[i + 1]));
  }

  /** A run measured in a slice is the run measured in the whole string. */
  lemma {:induction false} RunEndShift(s: string, lo: nat, hi: nat, k: nat, p: CharClass)
    requires lo <= hi <= |s| && k <= hi - lo
    requires RunEnd(s, lo + k, p) <= hi
    requires RunEnd(s, lo + k, p) < hi || hi == |s| || !In(s[hi], p)
    ensures RunEnd(s[lo..hi], k, p) == RunEnd(s, lo + k, p) - lo
    decreases hi - lo - k
  {
    var t := s[lo..hi];
    if k < |t| && In(t[k], p) {
      RunEndShift(s, lo, hi, k + 1, p);
    }
  }

  /** The characters of an occurrence of `[` type number `]`. */
  lemma TokenChars(s: string, i: nat, kind: RoadKind, n: string)
    requires kind == A || kind == M
    requires var c := "[" + KindName(kind) + n + "]";
      i + |c| <= |s| && s[i..i + |c|] == c
    ensures i + |n| + 3 <= |s|
    ensures s[i] == '[' && s[i + 1] == KindName(kind)[0] && s[i + |n| + 2] == ']'
    ensures s[i + 2..i + |n| + 2] == n
    ensures forall j :: 0 <= j < |n| ==> s[i + 2 + j] == n[j]
  {
    var c := "[" + KindName(kind) + n + "]";
    assert |KindName(kind)| == 1;
    var t := s[i..i + |c|];
    assert s[i] == t[0] && s[i + 1] == t[1] && s[i + |n| + 2] == t[|n| + 2];
    forall j | 0 <= j < |n|
      ensures s[i + 2 + j] == n[j]
    {
      assert s[i + 2 + j] == t[2 + j] == c[2 + j];
    }
    assert s[i + 2..i + |n| + 2] == n;
  }

  /** Conversely, every occurrence of `[` type number `]` with a
      well-formed number is a match, and the match reads that number back:
      the scanner accepts exactly the language of the regular expression. */
  lemma TokenIsMatch(s: string, i: nat, kind: RoadKind, n: string)
    requires kind == A || kind == M
    requires IsRoadNumber(n)
    requires var c := "[" + KindName(kind) + n + "]";
      i + |c| <= |s| && s[i..i + |c|] == c
    ensures MatchAt(s, i)
    ensures RoadAt(s, i) == ParsedRoad(kind, n, "[" + KindName(kind) + n + "]")
  {
    TokenChars(s, i, kind, n);
    TokenRuns(s, i, n);
    assert MatchEnd(s, i) == i + |n| + 3;
    assert KindOf(s[i + 1]) == kind;
  }

  /** The two runs of a well-formed number sitting at `i + 2` and followed
      by `]` end where the number ends, the digit run being non-empty. */
  lemma TokenRuns(s: string, i: nat, n: string)
    requires IsRoadNumber(n)
    requires i + |n| + 3 <= |s| && s[i + |n| + 2] == ']'
    requires forall j :: 0 <= j < |n| ==> s[i + 2 + j] == n[j]
    ensures RunEnd(s, i + 2, Digits) > i + 2
    ensures RunEnd(s, RunEnd(s, i + 2, Digits), Uppers) == i + 2 + |n|
  {
    var dn := RunEnd(n, 0, Digits);
    RunEndAgrees(s, i + 2, n, 0, Digits);
    RunEndAgrees(s, i + 2, n, dn, Uppers);
    assert RunEnd(n, dn, Uppers) == |n|;
  }

  /** A run in `n` is the same run in `s` where `n` sits at `off` and is
      followed by `]`. */
  lemma {:induction false} RunEndAgrees(s: string, off: nat, n: string, k: nat, p: CharClass)
    requires off + |n| < |s| && s[off + |n|] == ']' && !In(']', p)
    requires forall j :: 0 <= j < |n| ==> s[off + j] == n[j]
    requires k <= |n|
    ensures RunEnd(s, off + k, p) == off + RunEnd(n, k, p)
    decreases |n| - k
  {
    if k < |n| && In(n[k], p) {
      RunEndAgrees(s, off, n, k + 1, p);
    }
  }

  /** The matches at or after `from`, in order: one parsed road for every
      position where the regular expression matches. */
  function Tokens(s: string, from: nat): seq<ParsedRoad>
    decreases |s| - from
  {
    if from >= |s| then []
    else (if MatchAt(s, from) then [RoadAt(s, from)] else []) + Tokens(s, from + 1)
  }

  /** Every element of `Tokens` is a well-formed road. */
  lemma {:induction false} TokensWellFormed(s: string, from: nat)
    ensures forall r :: r in Tokens(s, from) ==> WellFormedRoad(r)
    decreases |s| - from
  {
    if from < |s| {
      TokensWellFormed(s, from + 1);
      if MatchAt(s, from) {
        RoadAtWellFormed(s, from);
      }
    }
  }

  /** Positions without a match contribute nothing. */
  lemma {:induction false} TokensSkip(s: string, a: nat, b: nat)
    requires a <= b <= |s|
    requires forall k :: a <= k < b ==> !MatchAt(s, k)
    ensures Tokens(s, a) == Tokens(s, b)
    decreases b - a
  {
    if a < b {
      TokensSkip(s, a + 1, b);
    }
  }

  /** Matches never overlap: the inside of a match holds no `[`. */
  lemma NoMatchInside(s: string, i: nat)
    requires MatchAt(s, i)
    ensures forall k :: i < k < MatchEnd(s, i) ==> !MatchAt(s, k)
  {
    var d := RunEnd(s, i + 2, Digits);
    forall k | i < k < MatchEnd(s, i)
      ensures s[k] != '['
    {
      if k == i + 1 {
      } else if k < d {
        assert IsDigit(s[k]);
      } else if k < MatchEnd(s, i) - 1 {
        assert IsUpper(s[k]);
      }
    }
  }

  /** `roadCodeRegex.exec(s)` with `lastIndex == from`: the position of the
      first match at or after `from`. */
  function NextMatch(s: string, from: nat): (m: Option<nat>)
    ensures m.Some? ==> from <= m.value && MatchAt(s, m.value)
    ensures m.Some? ==> forall k :: from <= k < m.value ==> !MatchAt(s, k)
    ensures m.None? ==> forall k :: from <= k < |s| ==> !MatchAt(s, k)
    decreases |s| - from
  {
    if from >= |s| then None
    else if MatchAt(s, from) then Some(from)
    else NextMatch(s, from + 1)
  }

  /** One `exec` step: the next match and everything after it. */
  lemma NextMatchTokens(s: string, from: nat)
    requires from <= |s|
    ensures NextMatch(s, from).None? ==> Tokens(s, from) == []
    ensures NextMatch(s, from).Some? ==>
      var i := NextMatch(s, from).value;
      Tokens(s, from) == [RoadAt(s, i)] + Tokens(s, MatchEnd(s, i))
  {
    match NextMatch(s, from)
    case None =>
      TokensSkip(s, from, |s|);
    case Some(i) =>
      TokensSkip(s, from, i);
      NoMatchInside(s, i);
      TokensSkip(s, i + 1, MatchEnd(s, i));
  }

  /** `parseRoadCodes(roadDescription)`: the global `exec` loop; after each
      match the search resumes at `lastIndex`, just past the match. */
  method ParseRoadCodes(roadDescription: string) returns (roadCodes: seq<ParsedRoad>)
    ensures roadCodes == Tokens(roadDescription, 0)
    ensures forall r :: r in roadCodes ==> WellFormedRoad(r)
  {
    roadCodes := [];
    var lastIndex := 0;
    var m := NextMatch(roadDescription, lastIndex);
    while m.Some?
      invariant lastIndex <= |roadDescription|
      invariant m == NextMatch(roadDescription, lastIndex)
      invariant roadCodes + Tokens(roadDescription, lastIndex) == Tokens(roadDescription, 0)
      decreases |roadDescription| - lastIndex
    {
      NextMatchTokens(roadDescription, lastIndex);
      var i := m.value;
      var road, end := RoadAt(roadDescription, i), MatchEnd(roadDescription, i);
      assert (roadCodes + [road]) + Tokens(roadDescription, end) ==
        roadCodes + ([road] + Tokens(roadDescription, end));
      roadCodes := roadCodes + [road];
      lastIndex := end;
      m := NextMatch(roadDescription, lastIndex);
    }
    NextMatchTokens(roadDescription, lastIndex);
    TokensWellFormed(roadDescription, 0);
  }
}
