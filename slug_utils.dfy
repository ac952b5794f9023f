// URL slugs for the detail pages (src/lib/utils/slugUtils.ts): `createSlug`
// is a chain of five regular-expression rewrites, each modelled by its own
// function; the four `create*Slug` functions append the feed id; and
// `extractIdFromSlug` takes the text after the last hyphen.

module SlugUtils {
  import opened Text

  /** Characters `/[^a-z0-9\s-]/g` leaves in place. */
  predicate IsKept(c: char) {
    IsLower(c) || IsDigit(c) || IsSpace(c) || c == '-'
  }

  /** Characters a finished slug is made of. */
  predicate IsSlugChar(c: char) {
    IsLower(c) || IsDigit(c) || c == '-'
  }

  predicate NoDoubleHyphen(s: string) {
    forall i :: 0 <= i < |s| - 1 ==> !(s[i] == '-' && s[i + 1] == '-')
  }

  /** The shape of every `createSlug` result: lower-case letters, digits
      and single hyphens, never a hyphen at either end. */
  predicate IsSlug(s: string) {
    && (forall i :: 0 <= i < |s| ==> IsSlugChar(s[i]))
    && NoDoubleHyphen(s)
    && (s != [] ==> s[0] != '-' && s[|s| - 1] != '-')
  }

  /** `.replace(/[^a-z0-9\s-]/g, '')`: punctuation is deleted, not replaced. */
  function DeleteSpecial(s: string): (r: string)
    ensures |r| <= |s|
    ensures forall i :: 0 <= i < |r| ==> IsKept(r[i])
    ensures (forall i :: 0 <= i < |s| ==> IsKept(s[i])) ==> r == s
  {
    if s == [] then []
    else if IsKept(s[0]) then [s[0]] + DeleteSpecial(s[1..])
    else DeleteSpecial(s[1..])
  }

  lemma {:induction false} DeleteSpecialAppend(a: string, b: string)
    ensures DeleteSpecial(a + b) == DeleteSpecial(a) + DeleteSpecial(b)
  {
    if a == [] {
      assert a + b == b;
    } else {
      assert (a + b)[0] == a[0] && (a + b)[1..] == a[1..] + b;
      DeleteSpecialAppend(a[1..], b);
    }
  }

  /** Drops the run of characters satisfying `p` at the front of `s`. */
  function DropRun(s: string, p: char -> bool): (r: string)
    ensures |r| <= |s| && r == s[|s| - |r|..]
    ensures r != [] ==> !p(r[0])
  {
    if s != [] && p(s[0]) then DropRun(s[1..], p) else s
  }

  /** `.replace(/X+/g, '-')` for a character class X given as `p`: every
      maximal run of X characters becomes one hyphen. */
  function ReplaceRuns(s: string, p: char -> bool): (r: string)
    ensures (r == []) == (s == [])
    ensures s != [] ==> (r[0] == '-' <==> p(s[0]) || s[0] == '-')
    decreases |s|
  {
    if s == [] then []
    else if p(s[0]) then "-" + ReplaceRuns(DropRun(s, p), p)
    else [s[0]] + ReplaceRuns(s[1..], p)
  }

  /** A prefix free of the run class is copied through unchanged. */
  lemma ReplaceRunsPrefix(x: string, y: string, p: char -> bool)
    requires forall i :: 0 <= i < |x| ==> !p(x[i])
    ensures ReplaceRuns(x + y, p) == x + ReplaceRuns(y, p)
  {
    var s := x + y;
    ReplaceRunsKeepsFront(s, |x|, p);
    assert s[..|x|] == x && s[|x|..] == y;
  }

  /** A front of `s` free of the run class is copied through unchanged. */
  lemma {:induction false} ReplaceRunsKeepsFront(s: string, k: nat, p: char -> bool)
    requires k <= |s|
    requires forall i :: 0 <= i < k ==> !p(s[i])
    ensures ReplaceRuns(s, p) == s[..k] + ReplaceRuns(s[k..], p)
    decreases k
  {
    if k > 0 {
      var t := s[1..];
      assert forall i :: 0 <= i < k - 1 ==> t[i] == s[i + 1];
      ReplaceRunsKeepsFront(t, k - 1, p);
      KeepsFrontStep(s, k, p);
    }
  }

  /** One character of the front: `s[0]` is copied, and the rest of the
      front follows from the induction hypothesis on `s[1..]`. */
  lemma KeepsFrontStep(s: string, k: nat, p: char -> bool)
    requires 0 < k <= |s| && !p(s[0])
    requires ReplaceRuns(s[1..], p) == s[1..][..k - 1] + ReplaceRuns(s[1..][k - 1..], p)
    ensures ReplaceRuns(s, p) == s[..k] + ReplaceRuns(s[k..], p)
  {
    var t := s[1..];
    ReplaceRunsCopiesHead(s, p);
    TailSlices(s, k);
    ConcatAssociative([s[0]], t[..k - 1], ReplaceRuns(t[k - 1..], p));
  }

  /** One unfolding of `ReplaceRuns` at a character outside the class. */
  lemma ReplaceRunsCopiesHead(s: string, p: char -> bool)
    requires s != [] && !p(s[0])
    ensures ReplaceRuns(s, p) == [s[0]] + ReplaceRuns(s[1..], p)
  {
  }

  /** A run followed by a character outside the class becomes one hyphen. */
  lemma ReplaceRunsOneRun(c: char, y: string, p: char -> bool)
    requires p(c) && (y == [] || !p(y[0]))
    ensures ReplaceRuns([c] + y, p) == "-" + ReplaceRuns(y, p)
  {
    assert DropRun([c] + y, p) == DropRun(y, p) == y by {
      assert ([c] + y)[1..] == y;
    }
  }

  lemma {:induction false} ReplaceRunsNoRun(s: string, p: char -> bool)
    requires forall i :: 0 <= i < |s| ==> !p(s[i])
    ensures ReplaceRuns(s, p) == s
  {
    if s != [] {
      ReplaceRunsNoRun(s[1..], p);
    }
  }

  /** Rewriting keeps every character of the given class `q` (other than
      the run class itself), and the hyphen it inserts must be in `q`. */
  lemma {:induction false} ReplaceRunsKeeps(s: string, p: char -> bool, q: char -> bool)
    requires q('-')
    requires forall i :: 0 <= i < |s| ==> q(s[i]) || p(s[i])
    ensures forall i :: 0 <= i < |ReplaceRuns(s, p)| ==> q(ReplaceRuns(s, p)[i])
    decreases |s|
  {
    if s != [] {
      if p(s[0]) {
        ReplaceRunsKeeps(DropRun(s, p), p, q);
      } else {
        ReplaceRunsKeeps(s[1..], p, q);
      }
    }
  }

  predicate IsHyphen(c: char) { c == '-' }

  /** `.replace(/-+/g, '-')` leaves no two hyphens side by side. */
  lemma {:induction false} CollapsedHasNoDoubleHyphen(s: string)
    ensures NoDoubleHyphen(ReplaceRuns(s, IsHyphen))
    decreases |s|
  {
    var r := ReplaceRuns(s, IsHyphen);
    if s != [] {
      if s[0] == '-' {
        var d := DropRun(s, IsHyphen);
        CollapsedHasNoDoubleHyphen(d);
        assert r == "-" + ReplaceRuns(d, IsHyphen);
      } else {
        CollapsedHasNoDoubleHyphen(s[1..]);
        assert r == [s[0]] + ReplaceRuns(s[1..], IsHyphen);
      }
    }
  }

  /** 1 when `s` starts with a hyphen, else 0. */
  function LeadingHyphen(s: string): nat {
    if s != [] && s[0] == '-' then 1 else 0
  }

  /** `.replace(/^-|-$/g, '')`: one leading and one trailing hyphen go;
      what is left is a contiguous part of `s`. */
  function StripHyphenEnds(s: string): (r: string)
    ensures NoDoubleHyphen(s) ==> r == [] || (r[0] != '-' && r[|r| - 1] != '-')
    ensures NoDoubleHyphen(s) ==> NoDoubleHyphen(r)
    ensures LeadingHyphen(s) + |r| <= |s|
    ensures r == s[LeadingHyphen(s)..LeadingHyphen(s) + |r|]
  {
    var a := s[LeadingHyphen(s)..];
    if a != [] && a[|a| - 1] == '-' then a[..|a| - 1] else a
  }

  /** The first two steps of `createSlug`: lower-case, delete punctuation. */
  function Kept(text: string): (r: string)
    ensures forall i :: 0 <= i < |r| ==> IsKept(r[i])
  {
    DeleteSpecial(Lower(text))
  }

  lemma KeptAppend(a: string, b: string)
    ensures Kept(a + b) == Kept(a) + Kept(b)
  {
    LowerAppend(a, b);
    DeleteSpecialAppend(Lower(a), Lower(b));
  }

  /** The last three steps of `createSlug`: hyphenate whitespace runs,
      collapse hyphen runs, strip one hyphen at each end. */
  function Finish(kept: string): (r: string)
    requires forall i :: 0 <= i < |kept| ==> IsKept(kept[i])
    ensures IsSlug(r)
  {
    forall i | 0 <= i < |kept|
      ensures IsSlugChar(kept[i]) || IsSpace(kept[i])
    {
      assert IsKept(kept[i]);
    }
    var hyphenated := ReplaceRuns(kept, IsSpace);
    ReplaceRunsKeeps(kept, IsSpace, IsSlugChar);
    var collapsed := ReplaceRuns(hyphenated, IsHyphen);
    ReplaceRunsKeeps(hyphenated, IsHyphen, IsSlugChar);
    CollapsedHasNoDoubleHyphen(hyphenated);
    var r := StripHyphenEnds(collapsed);
    assert forall k :: 0 <= k < |r| ==> IsSlugChar(r[k]) by {
      var d := LeadingHyphen(collapsed);
      assert forall k :: 0 <= k < |r| ==> r[k] == collapsed[d + k];
    }
    r
  }

  /** `createSlug(text)`: the result is always a well-formed slug. */
  function CreateSlug(text: string): (r: string)
    ensures IsSlug(r)
  {
    Finish(Kept(text))
  }

  /** A slug is left unchanged by the last three steps. */
  lemma FinishOfSlug(s: string)
    requires IsSlug(s)
    ensures Finish(s) == s
  {
    ReplaceRunsNoRun(s, IsSpace);
    CollapseNoDoubleHyphen(s);
  }

  /** A slug is left unchanged by every step of `createSlug`. */
  lemma CreateSlugFixesSlugs(s: string)
    requires IsSlug(s)
    ensures CreateSlug(s) == s
  {
    assert Kept(s) == s by {
      assert Lower(s) == s;
    }
    FinishOfSlug(s);
  }

  lemma {:induction false} CollapseNoDoubleHyphen(s: string)
    requires NoDoubleHyphen(s)
    ensures ReplaceRuns(s, IsHyphen) == s
  {
    if s != [] {
      CollapseNoDoubleHyphen(s[1..]);
      if s[0] == '-' {
        assert DropRun(s, IsHyphen) == s[1..];
      }
    }
  }

  /** `createSlug` is idempotent. */
  lemma CreateSlugIdempotent(text: string)
    ensures CreateSlug(CreateSlug(text)) == CreateSlug(text)
  {
    CreateSlugFixesSlugs(CreateSlug(text));
  }

  lemma KeptDeletes(a: string, c: char, b: string)
    requires !IsKept(LowerChar(c))
    ensures Kept(a + [c] + b) == Kept(a + b)
  {
    KeptAppend(a + [c], b);
    KeptAppend(a, [c]);
    KeptAppend(a, b);
    assert Kept([c]) == [];
  }

  /** Punctuation is deleted, not turned into a hyphen: removing any
      character outside `[A-Za-z0-9\s-]` from the text changes nothing. */
  lemma CreateSlugDeletesPunctuation(a: string, c: char, b: string)
    requires !IsKept(LowerChar(c))
    ensures CreateSlug(a + [c] + b) == CreateSlug(a + b)
  {
    KeptDeletes(a, c, b);
  }

  predicate IsAlnum(c: char) { IsLower(c) || IsUpper(c) || IsDigit(c) }

  /** A word: a non-empty run of ASCII letters and digits. */
  predicate IsWord(w: string) {
    w != [] && forall i :: 0 <= i < |w| ==> IsAlnum(w[i])
  }

  lemma {:induction false} KeptOfWordPrefix(w: string, rest: string)
    requires forall i :: 0 <= i < |w| ==> IsAlnum(w[i])
    ensures Kept(w + rest) == Lower(w) + Kept(rest)
  {
    KeptAppend(w, rest);
    assert DeleteSpecial(Lower(w)) == Lower(w);
  }

  /** A word lower-cased is a slug. */
  lemma LowerWordIsSlug(w: string)
    requires IsWord(w)
    ensures IsSlug(Lower(w)) && '-' !in Lower(w)
  {
  }

  /** A single word slugs to its lower-case form. */
  lemma CreateSlugOfWord(w: string)
    requires IsWord(w)
    ensures CreateSlug(w) == Lower(w)
  {
    assert Kept(w) == Lower(w) by {
      KeptOfWordPrefix(w, []);
      assert w + [] == w;
    }
    LowerWordIsSlug(w);
    FinishOfSlug(Lower(w));
  }

  /** Stripping the ends of `l-c` only touches the end of `c`. */
  lemma StripAfterWord(l: string, c: string)
    requires l != [] && l[0] != '-' && c != [] && c[0] != '-'
    ensures StripHyphenEnds(l + "-" + c) == l + "-" + StripHyphenEnds(c)
  {
    var s := l + "-" + c;
    assert s[0] != '-' && s[|s| - 1] == c[|c| - 1];
    if c[|c| - 1] == '-' {
      assert s[..|s| - 1] == l + "-" + c[..|c| - 1];
    }
  }

  /** One separator between a hyphen-free word and the rest becomes one
      hyphen, whichever run class is being replaced. */
  lemma RunJoin(l: string, sep: char, k: string, p: char -> bool)
    requires forall i :: 0 <= i < |l| ==> !p(l[i])
    requires p(sep) && k != [] && !p(k[0])
    ensures ReplaceRuns(l + [sep] + k, p) == l + "-" + ReplaceRuns(k, p)
  {
    var tail := [sep] + k;
    var t := ReplaceRuns(k, p);
    assert l + [sep] + k == l + tail;
    assert ReplaceRuns(l + tail, p) == l + ("-" + t) by {
      ReplaceRunsOneRun(sep, k, p);
      ReplaceRunsPrefix(l, tail, p);
    }
    assert l + ("-" + t) == l + "-" + t;
  }

  /** The last three steps joining a hyphen-free word to the rest. */
  lemma FinishJoin(l: string, k: string)
    requires l != [] && forall i :: 0 <= i < |l| ==> IsLower(l[i]) || IsDigit(l[i])
    requires k != [] && (IsLower(k[0]) || IsDigit(k[0]))
    requires forall i :: 0 <= i < |k| ==> IsKept(k[i])
    ensures var x := l + " " + k;
      (forall i :: 0 <= i < |x| ==> IsKept(x[i])) && Finish(x) == l + "-" + Finish(k)
  {
    var x := l + [' '] + k;
    assert forall i :: 0 <= i < |x| ==> IsKept(x[i]) by {
      forall i | 0 <= i < |x| ensures IsKept(x[i]) {
        if i < |l| { assert x[i] == l[i]; }
        else if i > |l| { assert x[i] == k[i - |l| - 1]; }
      }
    }
    var h := ReplaceRuns(k, IsSpace);
    RunJoin(l, ' ', k, IsSpace);
    var c := ReplaceRuns(h, IsHyphen);
    RunJoin(l, '-', h, IsHyphen);
    StripAfterWord(l, c);
  }

  lemma KeptJoin(w: string, rest: string)
    requires IsWord(w) && rest != []
    ensures Kept(w + " " + rest) == Lower(w) + " " + Kept(rest)
    ensures Kept(rest) != [] || !IsKept(LowerChar(rest[0]))
    ensures IsKept(LowerChar(rest[0])) ==> Kept(rest)[0] == LowerChar(rest[0])
  {
    KeptOfWordPrefix(w, " " + rest);
    assert w + " " + rest == w + (" " + rest);
    KeptAppend(" ", rest);
    KeptAppend([rest[0]], rest[1..]);
    assert rest == [rest[0]] + rest[1..];
  }

  /** Words separated by a space are joined by a single hyphen. */
  lemma CreateSlugJoinsWords(w: string, rest: string)
    requires IsWord(w) && rest != [] && IsAlnum(rest[0])
    ensures CreateSlug(w + " " + rest) == Lower(w) + "-" + CreateSlug(rest)
  {
    KeptJoin(w, rest);
    FinishJoin(Lower(w), Kept(rest));
  }

  lemma StJohnsWoodShape(st: string, john: string, wood: string)
    ensures st + ". " + john + "'s " + wood == st + ['.'] + (" " + john + "'s " + wood)
    ensures st + (" " + john + "'s " + wood) == (st + " " + john) + ['\''] + ("s " + wood)
    ensures (st + " " + john) + ("s " + wood) == st + " " + ((john + "s") + " " + wood)
  {
  }

  lemma StJohnsWoodSlugShape(st: string, john: string, wood: string)
    ensures st + "-" + ((john + "s") + "-" + wood) == st + "-" + john + "s-" + wood
  {
  }

  /** Removing the full stop and the apostrophe of "St. John's Wood". */
  lemma StJohnsWoodPunctuation(st: string, john: string, wood: string)
    ensures CreateSlug(st + ". " + john + "'s " + wood)
         == CreateSlug(st + " " + ((john + "s") + " " + wood))
  {
    StJohnsWoodShape(st, john, wood);
    KeptDeletes(st, '.', " " + john + "'s " + wood);
    KeptDeletes(st + " " + john, '\'', "s " + wood);
  }

  /** "Johns" is still a word, and lower-cases to "johns". */
  lemma PossessiveWord(john: string)
    requires IsWord(john)
    ensures IsWord(john + "s") && Lower(john + "s") == Lower(john) + "s"
  {
    LowerAppend(john, "s");
  }

  /** Joining the last two words of "St Johns Wood". */
  lemma JohnsWoodWords(john: string, wood: string)
    requires IsWord(john) && IsWord(wood)
    ensures CreateSlug((john + "s") + " " + wood) == (Lower(john) + "s") + "-" + Lower(wood)
  {
    PossessiveWord(john);
    CreateSlugJoinsWords(john + "s", wood);
    CreateSlugOfWord(wood);
  }

  /** Joining the three words of "St Johns Wood". */
  lemma StJohnsWoodWords(st: string, john: string, wood: string)
    requires IsWord(st) && IsWord(john) && IsWord(wood)
    ensures CreateSlug(st + " " + ((john + "s") + " " + wood))
         == Lower(st) + "-" + ((Lower(john) + "s") + "-" + Lower(wood))
  {
    JohnsWoodWords(john, wood);
    CreateSlugJoinsWords(st, (john + "s") + " " + wood);
  }

  /** A name shaped like "St. John's Wood" slugs like "st-johns-wood":
      the full stop and the apostrophe vanish and each space becomes a
      hyphen. */
  lemma CreateSlugStJohnsWood(st: string, john: string, wood: string)
    requires IsWord(st) && IsWord(john) && IsWord(wood)
    ensures CreateSlug(st + ". " + john + "'s " + wood)
         == Lower(st) + "-" + Lower(john) + "s-" + Lower(wood)
  {
    StJohnsWoodPunctuation(st, john, wood);
    StJohnsWoodWords(st, john, wood);
    StJohnsWoodSlugShape(Lower(st), Lower(john), Lower(wood));
  }

  /** `extractIdFromSlug(slug)`: the last element of `slug.split('-')`,
      that is, everything after the last hyphen (the whole slug when it
      has none). */
  function ExtractIdFromSlug(slug: string): (r: string)
    ensures |r| <= |slug| && r == slug[|slug| - |r|..]
    ensures '-' !in r
    ensures |r| < |slug| ==> slug[|slug| - |r| - 1] == '-'
  {
    if slug == [] then []
    else if slug[|slug| - 1] == '-' then []
    else ExtractIdFromSlug(slug[..|slug| - 1]) + [slug[|slug| - 1]]
  }

  /** Whatever precedes the last hyphen, a hyphen-free id after it is
      recovered exactly. */
  lemma {:induction false} ExtractAfterHyphen(prefix: string, id: string)
    requires '-' !in id
    ensures ExtractIdFromSlug(prefix + "-" + id) == id
  {
    var s := prefix + "-" + id;
    if id != [] {
      assert s[..|s| - 1] == prefix + "-" + id[..|id| - 1];
      ExtractAfterHyphen(prefix, id[..|id| - 1]);
    }
  }

  /** The shape shared by the four detail-page slugs: the slugged name, or
      the lower-cased id when the name is empty, then a hyphen and the id.
      A hyphen-free id is read back by `extractIdFromSlug`. */
  function SlugWithId(name: string, id: string): (r: string)
    ensures name == "" ==> r == Lower(id) + "-" + id
    ensures name != "" ==> r == CreateSlug(name) + "-" + id
    ensures '-' !in id ==> ExtractIdFromSlug(r) == id
  {
    var base := if name != "" then CreateSlug(name) else Lower(id);
    assert '-' !in id ==> ExtractIdFromSlug(base + "-" + id) == id by {
      if '-' !in id {
        ExtractAfterHyphen(base, id);
      }
    }
    base + "-" + id
  }

  /** `createRoadDisruptionSlug(roadName, disruptionId)`. */
  function CreateRoadDisruptionSlug(roadName: string, disruptionId: string): (r: string)
    ensures roadName != "" ==> r == CreateSlug(roadName) + "-" + disruptionId
    ensures roadName == "" ==> r == Lower(disruptionId) + "-" + disruptionId
    ensures '-' !in disruptionId ==> ExtractIdFromSlug(r) == disruptionId
  {
    SlugWithId(roadName, disruptionId)
  }

  /** `createEventSlug(title, eventId)`. */
  function CreateEventSlug(title: string, eventId: string): (r: string)
    ensures title != "" ==> r == CreateSlug(title) + "-" + eventId
    ensures title == "" ==> r == Lower(eventId) + "-" + eventId
    ensures '-' !in eventId ==> ExtractIdFromSlug(r) == eventId
  {
    SlugWithId(title, eventId)
  }

  /** `createInspectorSlug(locationName, inspectorId)`. */
  function CreateInspectorSlug(locationName: string, inspectorId: string): (r: string)
    ensures locationName != "" ==> r == CreateSlug(locationName) + "-" + inspectorId
    ensures locationName == "" ==> r == Lower(inspectorId) + "-" + inspectorId
    ensures '-' !in inspectorId ==> ExtractIdFromSlug(r) == inspectorId
  {
    SlugWithId(locationName, inspectorId)
  }

  /** `createTransportDisruptionSlug(commonName, disruptionId)`. */
  function CreateTransportDisruptionSlug(commonName: string, disruptionId: string): (r: string)
    ensures commonName != "" ==> r == CreateSlug(commonName) + "-" + disruptionId
    ensures commonName == "" ==> r == Lower(disruptionId) + "-" + disruptionId
    ensures '-' !in disruptionId ==> ExtractIdFromSlug(r) == disruptionId
  {
    SlugWithId(commonName, disruptionId)
  }

  /** A name made only of punctuation slugs to "", so the link is a bare
      hyphen followed by the id (the empty-name fallback is not taken). */
  lemma PunctuationOnlyName(name: string, id: string)
    requires name != [] && forall i :: 0 <= i < |name| ==> !IsKept(LowerChar(name[i]))
    ensures CreateRoadDisruptionSlug(name, id) == "-" + id
  {
    assert Kept(name) == [] by {
      assert forall i :: 0 <= i < |Lower(name)| ==> !IsKept(Lower(name)[i]);
      DeleteSpecialAll(Lower(name));
    }
  }

  lemma {:induction false} DeleteSpecialAll(s: string)
    requires forall i :: 0 <= i < |s| ==> !IsKept(s[i])
    ensures DeleteSpecial(s) == []
  {
    if s != [] {
      DeleteSpecialAll(s[1..]);
    }
  }

  /** A hyphenated id does not survive the round trip: only the part after
      its last hyphen comes back (an id "TIMS-12345" reads back as "12345"). */
  lemma HyphenatedIdIsTruncated(roadName: string, head: string, tail: string)
    requires '-' !in tail
    ensures ExtractIdFromSlug(CreateRoadDisruptionSlug(roadName, head + "-" + tail)) == tail
  {
    var id := head + "-" + tail;
    var base := if roadName != "" then CreateSlug(roadName) else Lower(id);
    assert base + "-" + id == (base + "-" + head) + "-" + tail;
    ExtractAfterHyphen(base + "-" + head, tail);
  }
}
