// `extractStreetNames` (src/lib/api/roadDisruptions.ts): the street names
// of a road description, left over once the road-code tokens and the
// parenthesised asides are deleted and the rest is split on `,` and `;`.

module StreetNames {
  import opened Text
  import opened JsValues
  import opened RoadCodes

  /** `.replace(/\[[AM]\d+[A-Z]*\]/g, '')` from position `from` on: the
      scan skips every match and keeps every other character.  The text
      that remains is not scanned again. */
  function RemoveCodes(s: string, from: nat): (r: string)
    requires from <= |s|
    ensures |r| <= |s| - from
    decreases |s| - from
  {
    if from == |s| then ""
    else if MatchAt(s, from) then RemoveCodes(s, MatchEnd(s, from))
    else [s[from]] + RemoveCodes(s, from + 1)
  }

  /** `c` does not occur at or after `from`. */
  predicate Absent(s: string, c: char, from: nat) {
    forall k :: from <= k < |s| ==> s[k] != c
  }

  /** Text without an opening bracket holds no code and is left alone. */
  lemma {:induction false} RemoveCodesWithoutBracket(s: string, from: nat)
    requires from <= |s|
    requires Absent(s, '[', from)
    ensures RemoveCodes(s, from) == s[from..]
    decreases |s| - from
  {
    if from < |s| {
      RemoveCodesWithoutBracket(s, from + 1);
      assert s[from..] == [s[from]] + s[from + 1..];
    }
  }

  /** What the deletion leaves of `s[from..]`, in terms of the next code
      token at or after `from`. */
  predicate RemovesUpToNext(s: string, from: nat)
    requires from <= |s|
  {
    match NextMatch(s, from)
    case None => RemoveCodes(s, from) == s[from..]
    case Some(i) => i <= |s| && RemoveCodes(s, from) == s[from..i] + RemoveCodes(s, MatchEnd(s, i))
  }

  /** A character that starts no token is kept in front of what the rest
      leaves. */
  lemma RemovesUpToNextStep(s: string, from: nat)
    requires from < |s| && !MatchAt(s, from)
    requires RemovesUpToNext(s, from + 1)
    ensures RemovesUpToNext(s, from)
  {
    RemoveCodesKeeps(s, from);
    match NextMatch(s, from + 1)
    case None =>
      assert s[from..] == [s[from]] + s[from + 1..];
    case Some(i) =>
      KeptBeforeMatch(s, from, i, RemoveCodes(s, MatchEnd(s, i)));
  }

  /** One unfolding of the deletion and of the search at a position that
      starts no token. */
  lemma RemoveCodesKeeps(s: string, from: nat)
    requires from < |s| && !MatchAt(s, from)
    ensures NextMatch(s, from) == NextMatch(s, from + 1)
    ensures RemoveCodes(s, from) == [s[from]] + RemoveCodes(s, from + 1)
  {
  }

  /** The kept character joins the verbatim text before the next token. */
  lemma KeptBeforeMatch(s: string, from: nat, i: nat, after: string)
    requires from < i <= |s|
    ensures [s[from]] + (s[from + 1..i] + after) == s[from..i] + after
  {
    assert s[from..i] == [s[from]] + s[from + 1..i];
  }

  /** The deletion walks from match to match: the text before the next
      code token is kept verbatim, the token is dropped and the scan goes
      on after it; with no token left, the rest is kept as it is. */
  lemma {:induction false} RemoveCodesNextMatch(s: string, from: nat)
    requires from <= |s|
    ensures RemovesUpToNext(s, from)
    decreases |s| - from
  {
    if from < |s| && !MatchAt(s, from) {
      RemoveCodesNextMatch(s, from + 1);
      RemovesUpToNextStep(s, from);
    }
  }

  /** The position of the first `c` at or after `from`. */
  function FirstFrom(s: string, c: char, from: nat): (r: Option<nat>)
    requires from <= |s|
    ensures r.Some? ==> from <= r.value < |s| && s[r.value] == c
    ensures r.Some? ==> forall k :: from <= k < r.value ==> s[k] != c
    ensures r.None? ==> Absent(s, c, from)
    decreases |s| - from
  {
    if from == |s| then None
    else if s[from] == c then Some(from)
    else FirstFrom(s, c, from + 1)
  }

  /** `.replace(/\([^)]*\)/g, '')` from position `from` on: an opening
      parenthesis is deleted together with everything up to and including
      the first closing one after it; an opening parenthesis that no
      closing one follows stays. */
  function RemoveParens(s: string, from: nat): (r: string)
    requires from <= |s|
    ensures |r| <= |s| - from
    decreases |s| - from
  {
    if from == |s| then ""
    else
      var close := FirstFrom(s, ')', from + 1);
      if s[from] == '(' && close.Some? then RemoveParens(s, close.value + 1)
      else [s[from]] + RemoveParens(s, from + 1)
  }

  /** Deleting asides adds no closing parenthesis. */
  lemma {:induction false} RemoveParensNoClose(s: string, from: nat)
    requires from <= |s|
    requires Absent(s, ')', from)
    ensures Absent(RemoveParens(s, from), ')', 0)
    decreases |s| - from
  {
    if from < |s| {
      RemoveParensNoClose(s, from + 1);
    }
  }

  /** Every `(` has no `)` after it: no complete aside. */
  predicate NoAside(r: string) {
    forall i, j :: 0 <= i < j < |r| && r[i] == '(' ==> r[j] != ')'
  }

  /** No complete aside is left. */
  lemma {:induction false} RemoveParensLeavesNoAside(s: string, from: nat)
    requires from <= |s|
    ensures NoAside(RemoveParens(s, from))
    decreases |s| - from
  {
    if from < |s| {
      var close := FirstFrom(s, ')', from + 1);
      if s[from] == '(' && close.Some? {
        assert RemoveParens(s, from) == RemoveParens(s, close.value + 1);
        RemoveParensLeavesNoAside(s, close.value + 1);
      } else {
        assert RemoveParens(s, from) == [s[from]] + RemoveParens(s, from + 1);
        RemoveParensLeavesNoAside(s, from + 1);
        if s[from] == '(' {
          RemoveParensNoClose(s, from + 1);
        }
        NoAsideCons(s[from], RemoveParens(s, from + 1));
      }
    }
  }

  /** A character put in front of text with no complete aside starts none,
      unless it is a `(` and a `)` follows. */
  lemma NoAsideCons(ch: char, r: string)
    requires NoAside(r)
    requires ch == '(' ==> Absent(r, ')', 0)
    ensures NoAside([ch] + r)
  {
    var t := [ch] + r;
    forall i, j | 0 <= i < j < |t| && t[i] == '('
      ensures t[j] != ')'
    {
      assert t[j] == r[j - 1];
      if i > 0 {
        assert t[i] == r[i - 1];
      }
    }
  }

  /** Text without `(` before position `i` passes through unchanged. */
  lemma {:induction false} RemoveParensPrefix(s: string, from: nat, i: nat)
    requires from <= i <= |s|
    requires forall k :: from <= k < i ==> s[k] != '('
    ensures RemoveParens(s, from) == s[from..i] + RemoveParens(s, i)
    decreases i - from
  {
    if from < i {
      calc {
        RemoveParens(s, from);
        { assert s[from] != '('; }
        [s[from]] + RemoveParens(s, from + 1);
        { RemoveParensPrefix(s, from + 1, i); }
        [s[from]] + (s[from + 1..i] + RemoveParens(s, i));
        ([s[from]] + s[from + 1..i]) + RemoveParens(s, i);
        { assert [s[from]] + s[from + 1..i] == s[from..i]; }
        s[from..i] + RemoveParens(s, i);
      }
    }
  }

  predicate IsSeparator(c: char) {
    c == ',' || c == ';'
  }

  /** A string without `,` or `;`. */
  predicate NoSeparator(s: string) {
    forall k :: 0 <= k < |s| ==> !IsSeparator(s[k])
  }

  /** `.split(/[,;]/)`: the pieces between separators, empty ones
      included. */
  function Split(s: string): (r: seq<string>)
    ensures |r| >= 1
  {
    if s == [] then [""]
    else
      var rest := Split(s[1..]);
      if IsSeparator(s[0]) then [""] + rest
      else [[s[0]] + rest[0]] + rest[1..]
  }

  /** No piece holds a separator. */
  lemma {:induction false} SplitPieces(s: string)
    ensures forall k :: 0 <= k < |Split(s)| ==> NoSeparator(Split(s)[k])
  {
    if s != [] {
      SplitPieces(s[1..]);
      var rest := Split(s[1..]);
      if !IsSeparator(s[0]) {
        assert NoSeparator([s[0]] + rest[0]);
      }
    }
  }

  /** A piece without separators splits into itself. */
  lemma {:induction false} SplitWithoutSeparator(s: string)
    requires NoSeparator(s)
    ensures Split(s) == [s]
  {
    if s != [] {
      SplitWithoutSeparator(s[1..]);
      assert s == [s[0]] + s[1..];
    }
  }

  /** Splitting at the first separator. */
  lemma {:induction false} SplitAtSeparator(a: string, sep: char, b: string)
    requires NoSeparator(a) && IsSeparator(sep)
    ensures Split(a + [sep] + b) == [a] + Split(b)
  {
    if a == [] {
      assert a + [sep] + b == [sep] + b;
      assert ([sep] + b)[1..] == b;
    } else {
      SplitAtSeparator(a[1..], sep, b);
      assert (a + [sep] + b)[1..] == a[1..] + [sep] + b;
      assert [a[0]] + a[1..] == a;
    }
  }

  /** `part.match(/^[AM]\d+[A-Z]*$/)`: the whole part is a bare road code
      without brackets. */
  predicate IsBareCode(p: string) {
    |p| >= 2 && (p[0] == 'A' || p[0] == 'M') && IsRoadNumber(p[1..])
  }

  /** A name the filter keeps. */
  predicate IsStreetName(n: string) {
    n != "" && IsTrimmed(n) && !IsBareCode(n)
  }

  /** Trimming adds no separator. */
  lemma TrimNoSeparator(s: string)
    requires NoSeparator(s)
    ensures NoSeparator(Trim(s))
  {
    var i := SpaceRunEnd(s, 0);
    var j := SpaceRunStart(s, i, |s|);
    assert Trim(s) == s[i..j];
    forall k | 0 <= k < j - i
      ensures !IsSeparator(s[i..j][k])
    {
      assert s[i..j][k] == s[i + k];
    }
  }

  /** `.map(part => part.trim()).filter(part => part.length > 0 &&
      !part.match(...))`. */
  function Clean(parts: seq<string>): (r: seq<string>)
    ensures |r| <= |parts|
  {
    if parts == [] then []
    else
      var p := Trim(parts[0]);
      (if IsStreetName(p) then [p] else []) + Clean(parts[1..])
  }

  /** What the filter keeps is a street name, and trimming pieces without
      separators leaves names without separators. */
  lemma {:induction false} CleanNames(parts: seq<string>)
    requires forall k :: 0 <= k < |parts| ==> NoSeparator(parts[k])
    ensures forall k :: 0 <= k < |Clean(parts)| ==>
      IsStreetName(Clean(parts)[k]) && NoSeparator(Clean(parts)[k])
  {
    if parts != [] {
      CleanNames(parts[1..]);
      TrimNoSeparator(parts[0]);
    }
  }

  /** `extractStreetNames(roadDescription)`: every name it returns is
      non-empty, trimmed, free of separators and not a bare road code. */
  function ExtractStreetNames(roadDescription: string): (names: seq<string>)
    ensures forall k :: 0 <= k < |names| ==>
      IsStreetName(names[k]) && NoSeparator(names[k])
  {
    var parts := Split(Trim(RemoveParens(RemoveCodes(roadDescription, 0), 0)));
    SplitPieces(Trim(RemoveParens(RemoveCodes(roadDescription, 0), 0)));
    CleanNames(parts);
    Clean(parts)
  }

  /** One space before a trimmed, non-empty name is trimmed away. */
  lemma TrimAfterSpace(n: string)
    requires n != [] && IsTrimmed(n)
    ensures Trim(" " + n) == n
  {
    var s := " " + n;
    assert SpaceRunEnd(s, 1) == 1;
    assert SpaceRunEnd(s, 0) == 1;
    assert SpaceRunStart(s, 1, |s|) == |s|;
    assert s[1..] == n;
  }

  /** One space on each side of a trimmed, non-empty name is trimmed away. */
  lemma TrimBetweenSpaces(n: string)
    requires n != [] && IsTrimmed(n)
    ensures Trim(" " + n + " ") == n
  {
    var s := " " + n + " ";
    assert SpaceRunEnd(s, 1) == 1;
    assert SpaceRunEnd(s, 0) == 1;
    assert SpaceRunStart(s, 1, |s| - 1) == |s| - 1;
    assert SpaceRunStart(s, 1, |s|) == |s| - 1;
    assert s[1..|s| - 1] == n;
  }

  /** The names joined by ", ", as a road description lists streets. */
  function JoinNames(names: seq<string>): (r: string)
    ensures names == [] ==> r == ""
  {
    if names == [] then ""
    else if |names| == 1 then names[0]
    else names[0] + ", " + JoinNames(names[1..])
  }

  /** A name that survives a round trip through a description: besides
      being kept by the filter it holds no separator, no `[` (which could
      start a code) and no `(` (which could start an aside). */
  predicate IsListableName(n: string) {
    IsStreetName(n) && NoSeparator(n) && Absent(n, '[', 0) && Absent(n, '(', 0)
  }

  lemma {:induction false} JoinNamesAbsent(names: seq<string>, c: char)
    requires forall k :: 0 <= k < |names| ==> Absent(names[k], c, 0)
    requires c != ',' && c != ' '
    ensures Absent(JoinNames(names), c, 0)
  {
    if |names| > 1 {
      JoinNamesAbsent(names[1..], c);
      var n, t := names[0], JoinNames(names[1..]);
      forall k | 0 <= k < |n + ", " + t|
        ensures (n + ", " + t)[k] != c
      {
        if k >= |n| + 2 {
          assert (n + ", " + t)[k] == t[k - |n| - 2];
        }
      }
    }
  }

  lemma JoinNamesEnds(names: seq<string>)
    requires names != []
    requires forall k :: 0 <= k < |names| ==> IsListableName(names[k])
    ensures var j, first, last := JoinNames(names), names[0], names[|names| - 1];
      && |first| <= |j| && j[..|first|] == first
      && |last| <= |j| && j[|j| - |last|..] == last
  {
    JoinNamesFirst(names);
    JoinNamesLast(names);
  }

  /** The joined list starts with the first name. */
  lemma JoinNamesFirst(names: seq<string>)
    requires names != []
    ensures |names[0]| <= |JoinNames(names)| && JoinNames(names)[..|names[0]|] == names[0]
  {
    if |names| > 1 {
      var n, t := names[0], JoinNames(names[1..]);
      assert (n + ", " + t)[..|n|] == n;
    }
  }

  /** The joined list ends with the last name. */
  lemma {:induction false} JoinNamesLast(names: seq<string>)
    requires names != []
    ensures var j, last := JoinNames(names), names[|names| - 1];
      |last| <= |j| && j[|j| - |last|..] == last
  {
    if |names| > 1 {
      JoinNamesLast(names[1..]);
      var n, t, last := names[0], JoinNames(names[1..]), names[|names| - 1];
      assert names[1..][|names| - 2] == last;
      var j := n + ", " + t;
      assert j[|j| - |last|..] == t[|t| - |last|..];
    }
  }

  /** Every name of the list is listable. */
  predicate AllListable(names: seq<string>) {
    names == [] || (IsListableName(names[0]) && AllListable(names[1..]))
  }

  lemma {:induction false} AllListableAt(names: seq<string>, k: nat)
    requires AllListable(names) && k < |names|
    ensures IsListableName(names[k])
  {
    if k > 0 {
      AllListableAt(names[1..], k - 1);
    }
  }

  /** `Clean` takes one piece at a time. */
  lemma CleanCons(x: string, parts: seq<string>)
    ensures Clean([x] + parts) ==
      (if IsStreetName(Trim(x)) then [Trim(x)] else []) + Clean(parts)
  {
    assert ([x] + parts)[1..] == parts;
  }

  /** The separator between two names is a comma, then a space that
      goes with the next piece. */
  lemma CommaSpace(a: string, t: string)
    ensures a + ", " + t == a + [','] + (" " + t)
  {
    assert |a + ", " + t| == |a + [','] + (" " + t)|;
    forall k | 0 <= k < |a| + 2 + |t|
      ensures (a + ", " + t)[k] == (a + [','] + (" " + t))[k]
    {
    }
  }

  /** The first piece of a joined list, with its padding, trims to the
      first name and holds no separator. */
  lemma FirstPiece(pad: string, n: string)
    requires pad == "" || pad == " "
    requires IsListableName(n)
    ensures Trim(pad + n) == n && NoSeparator(pad + n)
  {
    if pad == "" {
      assert pad + n == n;
      TrimOfTrimmed(n);
    } else {
      TrimAfterSpace(n);
      assert forall k :: 1 <= k < |pad + n| ==> (pad + n)[k] == n[k - 1];
    }
  }

  /** A joined list of two or more names splits at the comma after the
      first name. */
  lemma SplitJoined(pad: string, names: seq<string>)
    requires |names| > 1 && NoSeparator(pad + names[0])
    ensures Split(pad + JoinNames(names)) ==
      [pad + names[0]] + Split(" " + JoinNames(names[1..]))
  {
    var piece, rest := pad + names[0], " " + JoinNames(names[1..]);
    CommaSpace(names[0], JoinNames(names[1..]));
    assert pad + JoinNames(names) == piece + [','] + rest;
    SplitAtSeparator(piece, ',', rest);
  }

  /** Splitting and cleaning a joined list of two or more names yields the
      first name, then what the rest of the list yields. */
  lemma CleanSplitStep(pad: string, names: seq<string>)
    requires pad == "" || pad == " "
    requires |names| > 1 && IsListableName(names[0])
    ensures Clean(Split(pad + JoinNames(names))) ==
      [names[0]] + Clean(Split(" " + JoinNames(names[1..])))
  {
    FirstPiece(pad, names[0]);
    SplitJoined(pad, names);
    CleanCons(pad + names[0], Split(" " + JoinNames(names[1..])));
  }

  /** A single name, with its padding, splits and cleans to itself. */
  lemma CleanSplitOne(pad: string, n: string)
    requires pad == "" || pad == " "
    requires IsListableName(n)
    ensures Clean(Split(pad + n)) == [n]
  {
    FirstPiece(pad, n);
    SplitWithoutSeparator(pad + n);
    CleanCons(pad + n, []);
  }

  /** The split pieces of a joined list, cleaned, are the names; `pad` is
      the space left at the front of every piece after the first. */
  lemma {:induction false} CleanSplitJoin(pad: string, names: seq<string>)
    requires pad == "" || pad == " "
    requires names != [] && AllListable(names)
    ensures Clean(Split(pad + JoinNames(names))) == names
    decreases |names|
  {
    if |names| == 1 {
      CleanSplitOne(pad, names[0]);
    } else {
      CleanSplitStep(pad, names);
      CleanSplitJoin(" ", names[1..]);
      assert names == [names[0]] + names[1..];
    }
  }

  /** A list of plain street names joined by ", " reads back as that list,
      as "High Street, Bankside" gives ["High Street", "Bankside"]. */
  lemma ExtractJoinedNames(names: seq<string>)
    requires AllListable(names)
    ensures ExtractStreetNames(JoinNames(names)) == names
  {
    var j := JoinNames(names);
    if names == [] {
      assert Split("") == [""];
    } else {
      forall k | 0 <= k < |names|
        ensures IsListableName(names[k])
      {
        AllListableAt(names, k);
      }
      assert RemoveParens(RemoveCodes(j, 0), 0) == j by {
        JoinNamesAbsent(names, '[');
        JoinNamesAbsent(names, '(');
        RemoveCodesWithoutBracket(j, 0);
        RemoveParensPrefix(j, 0, |j|);
        assert j[0..|j|] == j;
      }
      assert IsTrimmed(j) by {
        JoinNamesEnds(names);
        var first, last := names[0], names[|names| - 1];
        assert j[0] == first[0];
        assert j[|j| - 1] == last[|last| - 1];
      }
      TrimOfTrimmed(j);
      CleanSplitJoin("", names);
      assert "" + j == j;
    }
  }

  /** The first `c` at or after `from` is at `j`. */
  lemma {:induction false} FirstFromAt(s: string, c: char, from: nat, j: nat)
    requires from <= j < |s| && s[j] == c
    requires forall k :: from <= k < j ==> s[k] != c
    ensures FirstFrom(s, c, from) == Some(j)
    decreases j - from
  {
    if from < j {
      FirstFromAt(s, c, from + 1, j);
    }
  }

  /** A leading code is deleted, and nothing after it when that holds no
      `[`. */
  lemma RemoveLeadingCode(kind: RoadKind, number: string, rest: string)
    requires kind == A || kind == M
    requires IsRoadNumber(number)
    requires Absent(rest, '[', 0)
    ensures RemoveCodes("[" + KindName(kind) + number + "]" + rest, 0) == rest
  {
    var code := "[" + KindName(kind) + number + "]";
    var s := code + rest;
    assert s[..|code|] == code;
    TokenIsMatch(s, 0, kind, number);
    assert MatchEnd(s, 0) == |code|;
    assert s[|code|..] == rest;
    assert Absent(s, '[', |code|) by {
      forall k | |code| <= k < |s|
        ensures s[k] != '['
      {
        assert s[k] == rest[k - |code|];
      }
    }
    RemoveCodesWithoutBracket(s, |code|);
  }

  /** A trailing aside is deleted. */
  lemma RemoveTrailingAside(name: string, aside: string)
    requires Absent(name, '(', 0) && Absent(aside, ')', 0)
    ensures RemoveParens(" " + name + " (" + aside + ")", 0) == " " + name + " "
  {
    var rest := " " + name + " (" + aside + ")";
    var open := |name| + 2;
    assert forall k :: 0 <= k < open ==> rest[k] != '(' by {
      forall k | 1 <= k < open - 1
        ensures rest[k] != '('
      {
        assert rest[k] == name[k - 1];
      }
    }
    RemoveParensPrefix(rest, 0, open);
    assert rest[..open] == " " + name + " ";
    assert rest[open] == '(';
    FirstFromAt(rest, ')', open + 1, |rest| - 1) by {
      forall k | open + 1 <= k < |rest| - 1
        ensures rest[k] != ')'
      {
        assert rest[k] == aside[k - open - 1];
      }
    }
    assert RemoveParens(rest, open) == RemoveParens(rest, |rest|);
  }

  /** A code, then a name, then an aside in parentheses keeps only the
      name, as "[A302] Kennington Park Road (SE11)" gives
      ["Kennington Park Road"]. */
  lemma ExtractNameAfterCode(kind: RoadKind, number: string, name: string, aside: string)
    requires kind == A || kind == M
    requires IsRoadNumber(number)
    requires IsListableName(name)
    requires Absent(aside, '[', 0) && Absent(aside, ')', 0)
    ensures
      var code := "[" + KindName(kind) + number + "]";
      ExtractStreetNames(code + " " + name + " (" + aside + ")") == [name]
  {
    var code := "[" + KindName(kind) + number + "]";
    var rest := " " + name + " (" + aside + ")";
    assert code + " " + name + " (" + aside + ")" == code + rest;
    assert Absent(rest, '[', 0) by {
      forall k | 0 <= k < |rest|
        ensures rest[k] != '['
      {
        if 1 <= k <= |name| {
          assert rest[k] == name[k - 1];
        } else if |name| + 3 <= k < |rest| - 1 {
          assert rest[k] == aside[k - |name| - 3];
        }
      }
    }
    RemoveLeadingCode(kind, number, rest);
    RemoveTrailingAside(name, aside);
    TrimBetweenSpaces(name);
    SplitWithoutSeparator(name);
    TrimOfTrimmed(name);
    CleanCons(name, []);
  }
}
