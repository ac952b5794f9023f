// `sortRoads` (src/lib/api/roadDisruptions.ts): the comparator that puts
// M roads before A roads and orders numbers numerically, the stable sort it
// drives, and an in-place insertion sort on the array proved to compute it.

module RoadSort {
  import opened Text
  import opened RoadCodes

  /** The end of the digit prefix of a road number. */
  function DigitPrefixEnd(n: string): (d: nat)
    ensures d <= |n| && forall k :: 0 <= k < d ==> IsDigit(n[k])
  {
    RunEnd(n, 0, Digits)
  }

  /** The numeric value of the digit prefix ("40" for "40A"). */
  function NumberValue(n: string): nat {
    var d := DigitPrefixEnd(n);
    assert forall k :: 0 <= k < d ==> IsDigit(n[..d][k]);
    DigitsValue(n[..d])
  }

  /** What follows the digit prefix ("A" for "40A"). */
  function NumberSuffix(n: string): string {
    n[DigitPrefixEnd(n)..]
  }

  /** Code-point order on strings: -1, 0 or 1. */
  function LexCompare(x: string, y: string): (r: int)
    ensures -1 <= r <= 1
  {
    if x == [] && y == [] then 0
    else if x == [] then -1
    else if y == [] then 1
    else if x[0] < y[0] then -1
    else if x[0] > y[0] then 1
    else LexCompare(x[1..], y[1..])
  }

  lemma {:induction false} LexCompareEqual(x: string, y: string)
    ensures LexCompare(x, y) == 0 <==> x == y
  {
    if x != [] && y != [] && x[0] == y[0] {
      LexCompareEqual(x[1..], y[1..]);
      assert x == [x[0]] + x[1..] && y == [y[0]] + y[1..];
    }
  }

  lemma {:induction false} LexCompareAntisymmetric(x: string, y: string)
    ensures LexCompare(x, y) == -LexCompare(y, x)
  {
    if x != [] && y != [] && x[0] == y[0] {
      LexCompareAntisymmetric(x[1..], y[1..]);
    }
  }

  lemma {:induction false} LexCompareTransitive(x: string, y: string, z: string)
    requires LexCompare(x, y) < 0 && LexCompare(y, z) < 0
    ensures LexCompare(x, z) < 0
  {
    if x != [] && y != [] && z != [] && x[0] == y[0] == z[0] {
      LexCompareTransitive(x[1..], y[1..], z[1..]);
    }
  }

  /** `a.number.localeCompare(b.number, undefined, { numeric: true })` on
      road numbers: the digit prefixes compare by value, then the
      upper-case suffixes compare alphabetically. */
  function CompareNumbers(a: string, b: string): (r: int)
    ensures -1 <= r <= 1
  {
    var va, vb := NumberValue(a), NumberValue(b);
    if va < vb then -1
    else if va > vb then 1
    else LexCompare(NumberSuffix(a), NumberSuffix(b))
  }

  /** The comparator passed to `roads.sort`, branch for branch. */
  function CompareRoads(a: ParsedRoad, b: ParsedRoad): (r: int)
    ensures -1 <= r <= 1
  {
    if a.kind == M && b.kind != M then -1
    else if b.kind == M && a.kind != M then 1
    else if a.kind == A && b.kind != A then -1
    else if b.kind == A && a.kind != A then 1
    else if a.kind == b.kind then CompareNumbers(a.number, b.number)
    else 0
  }

  /** `a` sorts strictly before `b`. */
  predicate Less(a: ParsedRoad, b: ParsedRoad) {
    CompareRoads(a, b) < 0
  }

  /** The sort key the comparator orders by: M, then A, then anything
      else; then the number's value; then its suffix. */
  datatype RoadKey = RoadKey(rank: nat, value: nat, suffix: string)

  function Rank(k: RoadKind): nat {
    match k
    case M => 0
    case A => 1
    case Street => 2
  }

  function Key(r: ParsedRoad): RoadKey {
    RoadKey(Rank(r.kind), NumberValue(r.number), NumberSuffix(r.number))
  }

  /** Lexicographic order on keys. */
  predicate KeyLess(x: RoadKey, y: RoadKey) {
    || x.rank < y.rank
    || (x.rank == y.rank && x.value < y.value)
    || (x.rank == y.rank && x.value == y.value && LexCompare(x.suffix, y.suffix) < 0)
  }

  /** The comparator is the key order: it answers "before" exactly when
      the key is smaller, "equal" exactly when the keys agree, and it is
      antisymmetric, as `Array.prototype.sort` requires of a consistent
      comparator. */
  lemma CompareRoadsIsKeyOrder(a: ParsedRoad, b: ParsedRoad)
    ensures CompareRoads(a, b) < 0 <==> KeyLess(Key(a), Key(b))
    ensures CompareRoads(a, b) == 0 <==> Key(a) == Key(b)
    ensures CompareRoads(a, b) == -CompareRoads(b, a)
  {
    LexCompareEqual(NumberSuffix(a.number), NumberSuffix(b.number));
    LexCompareAntisymmetric(NumberSuffix(a.number), NumberSuffix(b.number));
  }

  /** Keys are totally ordered. */
  lemma KeyLessTotal(x: RoadKey, y: RoadKey)
    ensures KeyLess(x, y) || KeyLess(y, x) || x == y
    ensures !(KeyLess(x, y) && KeyLess(y, x))
  {
    LexCompareEqual(x.suffix, y.suffix);
    LexCompareAntisymmetric(x.suffix, y.suffix);
  }

  lemma KeyLessTransitive(x: RoadKey, y: RoadKey, z: RoadKey)
    requires KeyLess(x, y) && KeyLess(y, z)
    ensures KeyLess(x, z)
  {
    if x.rank == y.rank == z.rank && x.value == y.value == z.value {
      LexCompareTransitive(x.suffix, y.suffix, z.suffix);
    }
  }

  /** `Less` is a strict weak order: irreflexive, transitive, and two
      elements neither of which is less than the other have equal keys. */
  lemma LessIsStrictWeakOrder(a: ParsedRoad, b: ParsedRoad, c: ParsedRoad)
    ensures !Less(a, a)
    ensures Less(a, b) && Less(b, c) ==> Less(a, c)
    ensures !Less(a, b) && !Less(b, a) <==> Key(a) == Key(b)
  {
    CompareRoadsIsKeyOrder(a, a);
    CompareRoadsIsKeyOrder(a, b);
    CompareRoadsIsKeyOrder(b, a);
    CompareRoadsIsKeyOrder(b, c);
    CompareRoadsIsKeyOrder(a, c);
    KeyLessTotal(Key(a), Key(a));
    KeyLessTotal(Key(a), Key(b));
    if Less(a, b) && Less(b, c) {
      KeyLessTransitive(Key(a), Key(b), Key(c));
    }
  }

  /** "Not after" is transitive. */
  lemma NotLessTransitive(a: ParsedRoad, b: ParsedRoad, c: ParsedRoad)
    requires !Less(a, b) && !Less(b, c)
    ensures !Less(a, c)
  {
    CompareRoadsIsKeyOrder(a, b);
    CompareRoadsIsKeyOrder(b, c);
    CompareRoadsIsKeyOrder(a, c);
    var ka, kb, kc := Key(a), Key(b), Key(c);
    KeyLessTotal(ka, kb);
    KeyLessTotal(kb, kc);
    KeyLessTotal(ka, kc);
    if KeyLess(ka, kc) {
      if KeyLess(kc, kb) {
        KeyLessTransitive(ka, kc, kb);
      }
      if KeyLess(kb, ka) {
        KeyLessTransitive(kb, ka, kc);
      }
    }
  }

  predicate Sorted(s: seq<ParsedRoad>) {
    forall i, j :: 0 <= i < j < |s| ==> !Less(s[j], s[i])
  }

  /** Insert `x` into `t`, passing from the right every element that
      sorts strictly after it and no other. */
  function Insert(t: seq<ParsedRoad>, x: ParsedRoad): (r: seq<ParsedRoad>)
    ensures |r| == |t| + 1
  {
    if t == [] || !Less(x, t[|t| - 1]) then t + [x]
    else Insert(t[..|t| - 1], x) + [t[|t| - 1]]
  }

  /** The result of a stable sort with the comparator. */
  function Sort(s: seq<ParsedRoad>): (r: seq<ParsedRoad>)
    ensures |r| == |s|
  {
    if s == [] then [] else Insert(Sort(s[..|s| - 1]), s[|s| - 1])
  }

  lemma {:induction false} InsertPermutation(t: seq<ParsedRoad>, x: ParsedRoad)
    ensures multiset(Insert(t, x)) == multiset(t) + multiset{x}
  {
    if t != [] && Less(x, t[|t| - 1]) {
      InsertPermutation(t[..|t| - 1], x);
      assert t == t[..|t| - 1] + [t[|t| - 1]];
    }
  }

  lemma {:induction false} InsertSorted(t: seq<ParsedRoad>, x: ParsedRoad)
    requires Sorted(t)
    ensures Sorted(Insert(t, x))
  {
    var r := Insert(t, x);
    if t == [] {
    } else if !Less(x, t[|t| - 1]) {
      forall i | 0 <= i < |t|
        ensures !Less(x, t[i])
      {
        if i < |t| - 1 {
          NotLessTransitive(x, t[|t| - 1], t[i]);
        }
      }
    } else {
      var init, last := t[..|t| - 1], t[|t| - 1];
      InsertSorted(init, x);
      InsertPermutation(init, x);
      var ins := Insert(init, x);
      forall i | 0 <= i < |ins|
        ensures !Less(last, ins[i])
      {
        assert ins[i] in multiset(ins);
        if ins[i] == x {
          LessIsStrictWeakOrder(x, last, x);
        } else {
          assert ins[i] in multiset(init);
          var j :| 0 <= j < |init| && init[j] == ins[i];
          assert t[j] == init[j];
        }
      }
    }
  }

  /** The sort result is sorted ... */
  lemma {:induction false} SortSorted(s: seq<ParsedRoad>)
    ensures Sorted(Sort(s))
  {
    if s != [] {
      SortSorted(s[..|s| - 1]);
      InsertSorted(Sort(s[..|s| - 1]), s[|s| - 1]);
    }
  }

  /** ... and a permutation of the input ... */
  lemma {:induction false} SortPermutation(s: seq<ParsedRoad>)
    ensures multiset(Sort(s)) == multiset(s)
  {
    if s != [] {
      SortPermutation(s[..|s| - 1]);
      InsertPermutation(Sort(s[..|s| - 1]), s[|s| - 1]);
      assert s == s[..|s| - 1] + [s[|s| - 1]];
    }
  }

  /** The elements whose key is `k`, in order. */
  function WithKey(s: seq<ParsedRoad>, k: RoadKey): (r: seq<ParsedRoad>)
    ensures |r| <= |s|
  {
    if s == [] then []
    else WithKey(s[..|s| - 1], k) + (if Key(s[|s| - 1]) == k then [s[|s| - 1]] else [])
  }

  lemma WithKeyLast(s: seq<ParsedRoad>, x: ParsedRoad, k: RoadKey)
    ensures WithKey(s + [x], k) == WithKey(s, k) + (if Key(x) == k then [x] else [])
  {
    assert (s + [x])[..|s|] == s;
  }

  lemma {:induction false} InsertStable(t: seq<ParsedRoad>, x: ParsedRoad, k: RoadKey)
    ensures WithKey(Insert(t, x), k) == WithKey(t, k) + (if Key(x) == k then [x] else [])
  {
    if t == [] || !Less(x, t[|t| - 1]) {
      WithKeyLast(t, x, k);
    } else {
      var init, last := t[..|t| - 1], t[|t| - 1];
      InsertStable(init, x, k);
      WithKeyLast(Insert(init, x), last, k);
      WithKeyLast(init, last, k);
      assert t == init + [last];
      CompareRoadsIsKeyOrder(x, last);
    }
  }

  /** ... and stable: the elements of each key keep their input order. */
  lemma {:induction false} SortStable(s: seq<ParsedRoad>, k: RoadKey)
    ensures WithKey(Sort(s), k) == WithKey(s, k)
  {
    if s != [] {
      SortStable(s[..|s| - 1], k);
      InsertStable(Sort(s[..|s| - 1]), s[|s| - 1], k);
    }
  }

  /** In a sorted list every M road precedes every A road, and within a
      type the numbers ascend by value. */
  lemma SortedOrder(s: seq<ParsedRoad>, i: nat, j: nat)
    requires Sorted(s) && i < j < |s|
    ensures s[i].kind == A ==> s[j].kind != M
    ensures s[i].kind == s[j].kind ==> NumberValue(s[i].number) <= NumberValue(s[j].number)
  {
    assert !Less(s[j], s[i]);
  }

  /** "9" sorts before "40": the comparison is numeric, not textual. */
  lemma NineBeforeForty()
    ensures Less(ParsedRoad(A, "9", "[A9]"), ParsedRoad(A, "40", "[A40]"))
    ensures LexCompare("9", "40") > 0
  {
    assert NumberValue("9") == 9 by {
      assert DigitPrefixEnd("9") == 1;
      assert "9"[..1] == "9";
    }
    assert NumberValue("40") == 40 by {
      assert DigitPrefixEnd("40") == 2;
      assert "40"[..2] == "40";
      assert "40"[..1] == "4";
    }
  }

  /** Where `Insert` puts `x`: after the last element that does not sort
      strictly after it. */
  lemma {:induction false} InsertPosition(t: seq<ParsedRoad>, x: ParsedRoad, j: nat)
    requires j <= |t|
    requires forall k :: j <= k < |t| ==> Less(x, t[k])
    requires j == 0 || !Less(x, t[j - 1])
    ensures Insert(t, x) == t[..j] + [x] + t[j..]
    decreases |t|
  {
    if j < |t| {
      var init := t[..|t| - 1];
      InsertPosition(init, x, j);
      assert init[..j] == t[..j];
      assert t[j..] == init[j..] + [t[|t| - 1]];
    }
  }

  /** One pass of the sort: the element at `i` is moved left past the
      elements before it that sort strictly after it. */
  method InsertAt(a: array<ParsedRoad>, i: nat)
    requires i < a.Length
    modifies a
    ensures a[..i + 1] == Insert(old(a[..i]), old(a[i]))
    ensures forall k :: i < k < a.Length ==> a[k] == old(a[k])
  {
    ghost var t := a[..i];
    var x := a[i];
    var j := i;
    while j > 0 && Less(x, a[j - 1])
      invariant 0 <= j <= i
      invariant forall k :: 0 <= k < j ==> a[k] == t[k]
      invariant a[j] == x
      invariant forall k :: j < k <= i ==> a[k] == t[k - 1]
      invariant forall k :: i < k < a.Length ==> a[k] == old(a[k])
      invariant forall k :: j <= k < i ==> Less(x, t[k])
    {
      a[j - 1], a[j] := a[j], a[j - 1];
      j := j - 1;
    }
    InsertPosition(t, x, j);
    ShiftedIsInsert(a[..i + 1], t, x, j);
  }

  /** The array after the shifting loop, read as a sequence: the elements
      before `j` unchanged, `x` at `j`, the rest moved one to the right. */
  lemma ShiftedIsInsert(cur: seq<ParsedRoad>, t: seq<ParsedRoad>, x: ParsedRoad, j: nat)
    requires |cur| == |t| + 1 && j <= |t|
    requires forall k :: 0 <= k < j ==> cur[k] == t[k]
    requires cur[j] == x
    requires forall k :: j < k < |cur| ==> cur[k] == t[k - 1]
    ensures cur == t[..j] + [x] + t[j..]
  {
    var r := t[..j] + [x] + t[j..];
    forall k | 0 <= k < |cur|
      ensures cur[k] == r[k]
    {
      if k > j {
        assert r[k] == t[j..][k - j - 1];
      }
    }
  }

  /** Sorting one more element inserts it into the sorted prefix. */
  lemma SortPrefix(s: seq<ParsedRoad>, i: nat)
    requires i < |s|
    ensures Sort(s[..i + 1]) == Insert(Sort(s[..i]), s[i])
  {
    assert s[..i + 1][..i] == s[..i];
  }

  /** `sortRoads(roads)`: sorts the array in place. */
  method SortRoads(a: array<ParsedRoad>)
    modifies a
    ensures a[..] == Sort(old(a[..]))
  {
    ghost var s := a[..];
    var i := 0;
    while i < a.Length
      invariant 0 <= i <= a.Length
      invariant a[..i] == Sort(s[..i])
      invariant forall k :: i <= k < a.Length ==> a[k] == s[k]
    {
      InsertAt(a, i);
      SortPrefix(s, i);
      i := i + 1;
    }
    assert s[..a.Length] == s;
  }
}
