// `getRoadDisruption` (src/lib/api/roadDisruptions.ts) once the feed has
// been fetched: the scan for the disruption with the requested id, the road
// code read from its description or comments, the road name read after that
// code in the comments, and the list of affected roads built from the parsed
// and sorted codes and the street names.

module RoadDisruptions {
  import opened Text
  import opened JsValues
  import opened Feed
  import opened RoadCodes
  import opened RoadSort
  import opened StreetNames

  /** The string-valued `properties` of a road-disruption feature. */
  datatype RoadProps = RoadProps(
    disruptionId: JsString,
    roadDescription: JsString,
    roadName: JsString,
    comments: JsString,
    severity: JsString,
    currentUpdate: JsString,
    category: JsString,
    subCategory: JsString,
    fromDate: JsString,
    toDate: JsString,
    lastUpdated: JsString)

  /** One entry of `affectedRoads`: `{ type, number }`. */
  datatype AffectedRoad = AffectedRoad(kind: RoadKind, number: string)

  /** The road-disruption record `getRoadDisruption` resolves to. */
  datatype RoadDisruptionData = RoadDisruptionData(
    id: JsString,
    kind: string,
    roadName: string,
    currentUpdate: string,
    severity: string,
    coordinates: Pair,
    category: string,
    subCategory: string,
    fromDate: string,
    toDate: string,
    comments: string,
    lastUpdated: string,
    affectedRoads: seq<AffectedRoad>,
    roadType: RoadKind,
    roadNumber: string,
    description: string)

  /** `roadCodeRegex.exec(roadDescription) || roadCodeRegex.exec(comments)`:
      the first road code of the description, else the first of the
      comments.  A failed `exec` resets `lastIndex`, so both searches start
      at the beginning, and each finds what `parseRoadCodes` would list
      first. */
  function FirstCode(roadDescription: string, comments: string): (m: Option<ParsedRoad>)
    ensures m.Some? <==> Tokens(roadDescription, 0) != [] || Tokens(comments, 0) != []
    ensures Tokens(roadDescription, 0) != [] ==> m == Some(Tokens(roadDescription, 0)[0])
    ensures Tokens(roadDescription, 0) == [] && Tokens(comments, 0) != [] ==>
      m == Some(Tokens(comments, 0)[0])
    ensures m.Some? ==> WellFormedRoad(m.value)
  {
    NextMatchTokens(roadDescription, 0);
    NextMatchTokens(comments, 0);
    match NextMatch(roadDescription, 0)
    case Some(i) =>
      RoadAtWellFormed(roadDescription, i);
      Some(RoadAt(roadDescription, i))
    case None =>
      match NextMatch(comments, 0)
      case Some(i) =>
        RoadAtWellFormed(comments, i);
        Some(RoadAt(comments, i))
      case None => None
  }

  /** The pattern `\[A302]\s*([^(]+)` (for the code `[A302]`) matches at
      `p`: the code is there and is followed by at least one character
      other than `(`.  Whitespace after the code cannot stop the match,
      since `\s*` gives it back to `[^(]+`. */
  predicate NameMatchAt(c: string, code: string, p: nat) {
    p + |code| < |c| && c[p..p + |code|] == code && c[p + |code|] != '('
  }

  /** The leftmost position at or after `from` where the pattern matches. */
  function NameMatchFrom(c: string, code: string, from: nat): (m: Option<nat>)
    ensures m.Some? ==> from <= m.value && NameMatchAt(c, code, m.value)
    ensures m.Some? ==> forall k :: from <= k < m.value ==> !NameMatchAt(c, code, k)
    ensures m.None? ==> forall k :: from <= k ==> !NameMatchAt(c, code, k)
    decreases |c| - from
  {
    if from >= |c| then None
    else if NameMatchAt(c, code, from) then Some(from)
    else NameMatchFrom(c, code, from + 1)
  }

  /** Trimming keeps a character out that was not there. */
  lemma TrimAbsent(t: string, ch: char)
    requires Absent(t, ch, 0)
    ensures Absent(Trim(t), ch, 0)
  {
    var r := Trim(t);
    var i :| 0 <= i <= |t| - |r| && t[i..i + |r|] == r && AllSpace(t[..i]) && AllSpace(t[i + |r|..]);
    forall k | 0 <= k < |r|
      ensures r[k] != ch
    {
      assert r[k] == t[i + k];
    }
  }

  /** Where the group `[^(]+` starting at `q` ends: at the next `(`, or
      at the end of the text. */
  function ParenFrom(c: string, q: nat): (end: nat)
    requires q <= |c|
    ensures q <= end <= |c|
    ensures forall k :: q <= k < end ==> c[k] != '('
    ensures end < |c| ==> c[end] == '('
    ensures Absent(c, '(', q) ==> end == |c|
  {
    match FirstFrom(c, '(', q)
    case Some(e) => e
    case None => |c|
  }

  /** The captured group, trimmed: from `q`, just past the code, up to the
      next `(` or the end.  When only whitespace precedes the `(`, the group
      is one whitespace character and the name is empty. */
  function CapturedName(c: string, q: nat): (name: string)
    requires q <= |c|
    ensures IsTrimmed(name) && Absent(name, '(', 0)
    ensures Absent(c, '(', q) ==> name == Trim(c[q..])
  {
    var end := ParenFrom(c, q);
    var group := c[q..end];
    assert Absent(group, '(', 0) by {
      forall k | 0 <= k < end - q
        ensures group[k] != '('
      {
        assert group[k] == c[q + k];
      }
    }
    assert end == |c| ==> group == c[q..];
    TrimAbsent(group, '(');
    Trim(group)
  }

  /** `comments.match(...)`: the trimmed name after the first occurrence
      of `code` that the pattern accepts. */
  function NameAfterCode(c: string, code: string): (name: Option<string>)
    ensures name.Some? <==> exists p :: NameMatchAt(c, code, p)
    ensures name.Some? ==> IsTrimmed(name.value) && Absent(name.value, '(', 0)
  {
    match NameMatchFrom(c, code, 0)
    case Some(p) => Some(CapturedName(c, p + |code|))
    case None => None
  }

  /** `properRoadName`: the road name (or description, or "Unknown Road"),
      replaced by the name found after the road code in the comments when
      there are comments, a code, and a name after it. */
  function ProperRoadName(p: RoadProps, first: Option<ParsedRoad>): (name: string)
    ensures var comments := OrElse(p.comments, "");
      comments != "" && first.Some? &&
      NameAfterCode(comments, "[" + KindName(first.value.kind) + first.value.number + "]").Some? ==>
      name == NameAfterCode(comments, "[" + KindName(first.value.kind) + first.value.number + "]").value
    ensures var comments := OrElse(p.comments, "");
      !(comments != "" && first.Some? &&
        NameAfterCode(comments, "[" + KindName(first.value.kind) + first.value.number + "]").Some?) ==>
      name == OrElse(Or(p.roadName, p.roadDescription), "Unknown Road")
  {
    var fallback := OrElse(Or(p.roadName, p.roadDescription), "Unknown Road");
    var comments := OrElse(p.comments, "");
    if comments != "" && first.Some? then
      var roadCode := "[" + KindName(first.value.kind) + first.value.number + "]";
      match NameAfterCode(comments, roadCode)
      case Some(n) => n
      case None => fallback
    else fallback
  }

  /** `affectedRoads`: the sorted codes as `{ type, number }`, then every
      street name as a `Street` entry. */
  function AffectedRoads(codes: seq<ParsedRoad>, streets: seq<string>): (roads: seq<AffectedRoad>)
    ensures |roads| == |codes| + |streets|
    ensures forall k :: 0 <= k < |codes| ==>
      roads[k] == AffectedRoad(codes[k].kind, codes[k].number)
    ensures forall k :: 0 <= k < |streets| ==>
      roads[|codes| + k] == AffectedRoad(Street, streets[k])
  {
    seq(|codes| + |streets|, k requires 0 <= k < |codes| + |streets| =>
      if k < |codes| then AffectedRoad(codes[k].kind, codes[k].number)
      else AffectedRoad(Street, streets[k - |codes|]))
  }

  /** The object literal built from a matching feature.  `extractStreetNames`
      calls `replace` on `road_description`, which throws unless it is a
      string, and reading `feature.geometry.coordinates` throws when the
      geometry is missing.  `nowIso` stands for `new Date().toISOString()`. */
  function RoadDisruptionOf(p: RoadProps, geometry: Option<Geometry>, nowIso: string)
    : (r: Result<RoadDisruptionData, FetchError>)
    ensures r.Failure? <==> !p.roadDescription.Str? || geometry.None?
    ensures r.Failure? ==> r.error == TypeError
    ensures r.Success? ==> r.value.id == p.disruptionId
    ensures r.Success? ==>
      r.value.kind == r.value.severity &&
      (Truthy(p.severity) ==> r.value.severity == p.severity.s) &&
      (!Truthy(p.severity) ==> r.value.severity == "Moderate")
    ensures r.Success? ==>
      r.value.description == r.value.currentUpdate &&
      r.value.currentUpdate == OrElse(Or(p.currentUpdate, p.category), "Road disruption reported")
    ensures r.Success? && geometry.value.coordinates.Some? ==>
      r.value.coordinates == geometry.value.coordinates.value
    ensures r.Success? && geometry.value.coordinates.None? ==>
      r.value.coordinates == DEFAULT_COORDINATES
    ensures r.Success? ==>
      && r.value.category == OrElse(p.category, "Road Works")
      && r.value.subCategory == OrElse(p.subCategory, "Maintenance")
      && r.value.fromDate == OrElse(p.fromDate, nowIso)
      && r.value.toDate == OrElse(p.toDate, nowIso)
      && r.value.lastUpdated == OrElse(p.lastUpdated, nowIso)
      && r.value.comments == OrElse(p.comments, "")
    ensures r.Success? ==>
      var first := FirstCode(OrElse(Or(p.roadDescription, p.roadName), ""), OrElse(p.comments, ""));
      && (first.Some? ==> r.value.roadType == first.value.kind && r.value.roadNumber == first.value.number)
      && (first.None? ==> r.value.roadType == Street && r.value.roadNumber == "Unknown")
      && r.value.roadName == ProperRoadName(p, first)
    ensures r.Success? ==>
      r.value.affectedRoads ==
        AffectedRoads(Sort(Tokens(p.roadDescription.s, 0)), ExtractStreetNames(p.roadDescription.s))
  {
    if !p.roadDescription.Str? || geometry.None? then Failure(TypeError)
    else
      var rd := p.roadDescription.s;
      var comments := OrElse(p.comments, "");
      var first := FirstCode(OrElse(Or(p.roadDescription, p.roadName), ""), comments);
      var update := OrElse(Or(p.currentUpdate, p.category), "Road disruption reported");
      Success(RoadDisruptionData(
        id := p.disruptionId,
        kind := OrElse(p.severity, "Moderate"),
        roadName := ProperRoadName(p, first),
        currentUpdate := update,
        severity := OrElse(p.severity, "Moderate"),
        coordinates :=
          if geometry.value.coordinates.Some? then geometry.value.coordinates.value
          else DEFAULT_COORDINATES,
        category := OrElse(p.category, "Road Works"),
        subCategory := OrElse(p.subCategory, "Maintenance"),
        fromDate := OrElse(p.fromDate, nowIso),
        toDate := OrElse(p.toDate, nowIso),
        comments := comments,
        lastUpdated := OrElse(p.lastUpdated, nowIso),
        affectedRoads := AffectedRoads(Sort(Tokens(rd, 0)), ExtractStreetNames(rd)),
        roadType := if first.Some? then first.value.kind else Street,
        roadNumber := if first.Some? then first.value.number else "Unknown",
        description := update))
  }

  /** The first `n` entries are A or M roads with well-formed numbers. */
  predicate EntriesWellFormed(roads: seq<AffectedRoad>, n: nat) {
    n <= |roads| &&
    forall k :: 0 <= k < n ==> roads[k].kind != Street && IsRoadNumber(roads[k].number)
  }

  /** Among the first `n` entries, motorways come before A roads, and lower
      numbers first within a kind. */
  predicate EntriesOrdered(roads: seq<AffectedRoad>, n: nat) {
    && n <= |roads|
    && (forall i, j :: 0 <= i < j < n && roads[i].kind == A ==> roads[j].kind != M)
    && (forall i, j :: 0 <= i < j < n && roads[i].kind == roads[j].kind ==>
          NumberValue(roads[i].number) <= NumberValue(roads[j].number))
  }

  /** The first `|codes|` entries list every code and nothing else. */
  predicate EntriesListCodes(codes: seq<ParsedRoad>, roads: seq<AffectedRoad>) {
    && |codes| <= |roads|
    && (forall c :: c in codes ==> AffectedRoad(c.kind, c.number) in roads[..|codes|])
    && (forall k :: 0 <= k < |codes| ==> exists c :: c in codes && roads[k] == AffectedRoad(c.kind, c.number))
  }

  /** After the first `n` entries come the street names, in order. */
  predicate StreetsFollow(streets: seq<string>, roads: seq<AffectedRoad>, n: nat) {
    && |roads| == n + |streets|
    && forall k :: 0 <= k < |streets| ==> roads[n + k] == AffectedRoad(Street, streets[k])
  }

  /** The affected roads built from a list of parsed codes and a list of
      street names: first the codes, each an A or M road with a well-formed
      number, motorways before A roads and lower numbers first within a
      kind, every code listed and nothing else; then the street names, in
      order. */
  predicate ListsRoads(codes: seq<ParsedRoad>, streets: seq<string>, roads: seq<AffectedRoad>) {
    && EntriesWellFormed(roads, |codes|)
    && EntriesOrdered(roads, |codes|)
    && EntriesListCodes(codes, roads)
    && StreetsFollow(streets, roads, |codes|)
  }

  lemma SortedEntries(sorted: seq<ParsedRoad>, streets: seq<string>)
    requires Sorted(sorted)
    ensures EntriesOrdered(AffectedRoads(sorted, streets), |sorted|)
  {
    var roads := AffectedRoads(sorted, streets);
    forall i, j | 0 <= i < j < |sorted|
      ensures roads[i].kind == A ==> roads[j].kind != M
      ensures roads[i].kind == roads[j].kind ==>
        NumberValue(roads[i].number) <= NumberValue(roads[j].number)
    {
      SortedOrder(sorted, i, j);
    }
  }

  lemma PermutedEntries(codes: seq<ParsedRoad>, sorted: seq<ParsedRoad>, streets: seq<string>)
    requires multiset(sorted) == multiset(codes)
    ensures |sorted| == |codes|
    ensures EntriesListCodes(codes, AffectedRoads(sorted, streets))
  {
    var roads := AffectedRoads(sorted, streets);
    assert |sorted| == |codes| by {
      assert |multiset(sorted)| == |multiset(codes)|;
    }
    forall c | c in codes
      ensures AffectedRoad(c.kind, c.number) in roads[..|codes|]
    {
      assert c in multiset(sorted);
      var k :| 0 <= k < |sorted| && sorted[k] == c;
      assert roads[..|codes|][k] == AffectedRoad(c.kind, c.number);
    }
    forall k | 0 <= k < |codes|
      ensures exists c :: c in codes && roads[k] == AffectedRoad(c.kind, c.number)
    {
      assert sorted[k] in multiset(codes);
    }
  }

  lemma WellFormedEntries(sorted: seq<ParsedRoad>, streets: seq<string>)
    requires forall r :: r in sorted ==> WellFormedRoad(r)
    ensures EntriesWellFormed(AffectedRoads(sorted, streets), |sorted|)
  {
    var roads := AffectedRoads(sorted, streets);
    forall k | 0 <= k < |sorted|
      ensures roads[k].kind != Street && IsRoadNumber(roads[k].number)
    {
      assert sorted[k] in sorted;
    }
  }

  /** Sorting well-formed codes, then appending the streets, lists them. */
  lemma SortedCodesListed(codes: seq<ParsedRoad>, streets: seq<string>)
    requires forall r :: r in codes ==> WellFormedRoad(r)
    ensures ListsRoads(codes, streets, AffectedRoads(Sort(codes), streets))
  {
    SortedCodesOrdered(codes, streets);
    SortedCodesPermuted(codes, streets);
    SortedCodesWellFormed(codes, streets);
    StreetsAfterCodes(Sort(codes), streets);
  }

  lemma StreetsAfterCodes(sorted: seq<ParsedRoad>, streets: seq<string>)
    ensures StreetsFollow(streets, AffectedRoads(sorted, streets), |sorted|)
  {
  }

  lemma SortedCodesOrdered(codes: seq<ParsedRoad>, streets: seq<string>)
    ensures EntriesOrdered(AffectedRoads(Sort(codes), streets), |codes|)
  {
    SortSorted(codes);
    SortedEntries(Sort(codes), streets);
  }

  lemma SortedCodesPermuted(codes: seq<ParsedRoad>, streets: seq<string>)
    ensures EntriesListCodes(codes, AffectedRoads(Sort(codes), streets))
  {
    SortPermutation(codes);
    PermutedEntries(codes, Sort(codes), streets);
  }

  lemma SortedCodesWellFormed(codes: seq<ParsedRoad>, streets: seq<string>)
    requires forall r :: r in codes ==> WellFormedRoad(r)
    ensures EntriesWellFormed(AffectedRoads(Sort(codes), streets), |codes|)
  {
    SortPermutation(codes);
    forall r | r in Sort(codes)
      ensures WellFormedRoad(r)
    {
      assert r in multiset(codes);
    }
    WellFormedEntries(Sort(codes), streets);
  }

  /** The affected roads of a description list its road codes, sorted,
      then its street names. */
  lemma AffectedRoadsShape(rd: string)
    ensures ListsRoads(Tokens(rd, 0), ExtractStreetNames(rd),
                       AffectedRoads(Sort(Tokens(rd, 0)), ExtractStreetNames(rd)))
  {
    TokensWellFormed(rd, 0);
    SortedCodesListed(Tokens(rd, 0), ExtractStreetNames(rd));
  }

  /** Where the parts of `code + " " + name + " (" + aside + ")"` sit: the
      code at 0 followed by a space, then the spaced name up to the first
      `(` after the code. */
  lemma LeadingCodeLayout(code: string, name: string, aside: string)
    requires Absent(name, '(', 0)
    ensures var c := code + " " + name + " (" + aside + ")";
      var q := |code|;
      && NameMatchAt(c, code, 0)
      && c[q + |name| + 2] == '('
      && c[q..q + |name| + 2] == " " + name + " "
      && forall k :: q <= k < q + |name| + 2 ==> c[k] != '('
  {
    var c := code + " " + name + " (" + aside + ")";
    var q := |code|;
    var open := q + |name| + 2;
    assert c[q] == ' ';
    assert c[0..q] == code;
    forall k | q <= k < open
      ensures c[k] != '('
    {
      if q < k < open - 1 {
        assert c[k] == name[k - q - 1];
      }
    }
    assert c[q..open] == " " + name + " ";
  }

  /** A code, a space, a name without `(`, then an aside in parentheses:
      the name is what the pattern captures after the code. */
  lemma NameAfterLeadingCode(code: string, name: string, aside: string)
    requires name != "" && IsTrimmed(name) && Absent(name, '(', 0)
    ensures NameAfterCode(code + " " + name + " (" + aside + ")", code) == Some(name)
  {
    LeadingCodeLayout(code, name, aside);
    NameAtStart(code + " " + name + " (" + aside + ")", code, name);
  }

  /** The pattern matching at the very start, with the spaced name up to
      the next `(`, captures that name. */
  lemma NameAtStart(c: string, code: string, name: string)
    requires name != "" && IsTrimmed(name)
    requires NameMatchAt(c, code, 0)
    requires |code| + |name| + 2 < |c| && c[|code| + |name| + 2] == '('
    requires c[|code|..|code| + |name| + 2] == " " + name + " "
    requires forall k :: |code| <= k < |code| + |name| + 2 ==> c[k] != '('
    ensures NameAfterCode(c, code) == Some(name)
  {
    assert NameMatchFrom(c, code, 0) == Some(0);
    CapturedNameAt(c, |code|, |code| + |name| + 2);
    TrimBetweenSpaces(name);
  }

  /** With the next `(` after `q` at `open`, the captured name is the
      trimmed text between them. */
  lemma CapturedNameAt(c: string, q: nat, open: nat)
    requires q <= open < |c| && c[open] == '('
    requires forall k :: q <= k < open ==> c[k] != '('
    ensures CapturedName(c, q) == Trim(c[q..open])
  {
    FirstFromAt(c, '(', q, open);
  }

  /** Comments that start with a road code yield that code when the
      description has none. */
  lemma CodeFromComments(d: string, c: string, kind: RoadKind, number: string)
    requires Tokens(d, 0) == []
    requires kind == A || kind == M
    requires IsRoadNumber(number)
    requires var code := "[" + KindName(kind) + number + "]";
      |code| <= |c| && c[..|code|] == code
    ensures var code := "[" + KindName(kind) + number + "]";
      FirstCode(d, c) == Some(ParsedRoad(kind, number, code))
  {
    TokenIsMatch(c, 0, kind, number);
    NextMatchTokens(c, 0);
  }

  /** Comments made of a road code, a name and an aside give that code and
      that name when the description has no code. */
  lemma RoadFromComments(p: RoadProps, kind: RoadKind, number: string, name: string, aside: string)
    requires Tokens(OrElse(Or(p.roadDescription, p.roadName), ""), 0) == []
    requires kind == A || kind == M
    requires IsRoadNumber(number)
    requires name != "" && IsTrimmed(name) && Absent(name, '(', 0)
    requires var code := "[" + KindName(kind) + number + "]";
      p.comments == Str(code + " " + name + " (" + aside + ")")
    ensures var first := FirstCode(OrElse(Or(p.roadDescription, p.roadName), ""), OrElse(p.comments, ""));
      first == Some(ParsedRoad(kind, number, "[" + KindName(kind) + number + "]")) &&
      ProperRoadName(p, first) == name
  {
    var code := "[" + KindName(kind) + number + "]";
    var c := p.comments.s;
    assert c[..|code|] == code;
    CodeFromComments(OrElse(Or(p.roadDescription, p.roadName), ""), c, kind, number);
    NameAfterLeadingCode(code, name, aside);
  }

  /** A disruption whose description carries no road code but whose
      comments start with one, then a name, then an aside in parentheses,
      takes its road type, number and name from the comments, as comments
      "[A3] Kennington Park Road (southbound)" give the A road "3" named
      "Kennington Park Road". */
  lemma CodeAndNameFromComments(p: RoadProps, geometry: Geometry, nowIso: string,
                                kind: RoadKind, number: string, name: string, aside: string)
    requires p.roadDescription.Str? && Tokens(OrElse(Or(p.roadDescription, p.roadName), ""), 0) == []
    requires kind == A || kind == M
    requires IsRoadNumber(number)
    requires name != "" && IsTrimmed(name) && Absent(name, '(', 0)
    requires var code := "[" + KindName(kind) + number + "]";
      p.comments == Str(code + " " + name + " (" + aside + ")")
    ensures var r := RoadDisruptionOf(p, Some(geometry), nowIso);
      r.Success? && r.value.roadType == kind && r.value.roadNumber == number &&
      r.value.roadName == name
  {
    RoadFromComments(p, kind, number, name, aside);
  }

  /** `properties.disruption_id` of a road-disruption feature. */
  function DisruptionId(p: RoadProps): JsString {
    p.disruptionId
  }

  /** The body of the matching branch of `getRoadDisruption`, step by step:
      the first road code, the road name after it, `parseRoadCodes`,
      `sortRoads` on a fresh array, `extractStreetNames`, and the record. */
  method TransformRoad(p: RoadProps, geometry: Option<Geometry>, nowIso: string)
    returns (r: Result<RoadDisruptionData, FetchError>)
    ensures r == RoadDisruptionOf(p, geometry, nowIso)
  {
    var roadDescription := OrElse(Or(p.roadDescription, p.roadName), "");
    var comments := OrElse(p.comments, "");
    var roadMatch := FirstCode(roadDescription, comments);
    var roadType := Street;
    var roadNumber := "Unknown";
    if roadMatch.Some? {
      roadType := roadMatch.value.kind;
      roadNumber := roadMatch.value.number;
    }
    var properRoadName := OrElse(Or(p.roadName, p.roadDescription), "Unknown Road");
    if comments != "" && roadMatch.Some? {
      var roadCode := "[" + KindName(roadType) + roadNumber + "]";
      var roadNameMatch := NameAfterCode(comments, roadCode);
      if roadNameMatch.Some? {
        properRoadName := roadNameMatch.value;
      }
    }
    // `exec(undefined)` searches the text "undefined" and finds nothing.
    var roadCodes := ParseRoadCodes(Render(p.roadDescription));
    var roads := new ParsedRoad[|roadCodes|](k requires 0 <= k < |roadCodes| => roadCodes[k]);
    assert roads[..] == roadCodes;
    SortRoads(roads);
    var sortedRoadCodes := roads[..];
    if !p.roadDescription.Str? {
      return Failure(TypeError);
    }
    var streetNames := ExtractStreetNames(p.roadDescription.s);
    var affectedRoads := AffectedRoads(sortedRoadCodes, streetNames);
    if geometry.None? {
      return Failure(TypeError);
    }
    var update := OrElse(Or(p.currentUpdate, p.category), "Road disruption reported");
    r := Success(RoadDisruptionData(
      id := p.disruptionId,
      kind := OrElse(p.severity, "Moderate"),
      roadName := properRoadName,
      currentUpdate := update,
      severity := OrElse(p.severity, "Moderate"),
      coordinates :=
        if geometry.value.coordinates.Some? then geometry.value.coordinates.value
        else DEFAULT_COORDINATES,
      category := OrElse(p.category, "Road Works"),
      subCategory := OrElse(p.subCategory, "Maintenance"),
      fromDate := OrElse(p.fromDate, nowIso),
      toDate := OrElse(p.toDate, nowIso),
      comments := comments,
      lastUpdated := OrElse(p.lastUpdated, nowIso),
      affectedRoads := affectedRoads,
      roadType := roadType,
      roadNumber := roadNumber,
      description := update));
  }

  /** `getRoadDisruption(id)` after the fetch: a non-ok response is an API
      error; otherwise the features are scanned in order and the first one
      whose `disruption_id` equals `id` is transformed; a feature without
      properties on the way throws a TypeError, and reaching the end is a
      not-found error. */
  method GetRoadDisruption(response: Response<Feature<RoadProps>>, id: string, nowIso: string)
    returns (r: Result<RoadDisruptionData, FetchError>)
    ensures !response.ok ==> r == Failure(ApiError(response.status))
    ensures response.ok ==>
      var fs := FeaturesOrEmpty(response);
      var keys := Ids(fs, DisruptionId);
      && (forall i: nat :: FoundAt(keys, id, i) ==>
            r == RoadDisruptionOf(fs[i].properties.value, fs[i].geometry, nowIso))
      && (forall i: nat :: BrokenAt(keys, id, i) ==> r == Failure(TypeError))
      && (PassesBefore(keys, id, |keys|) ==> r == Failure(NotFound(id)))
    ensures r.Success? ==> r.value.id == Str(id)
  {
    if !response.ok {
      return Failure(ApiError(response.status));
    }
    var features := FeaturesOrEmpty(response);
    ghost var keys := Ids(features, DisruptionId);
    forall i: nat {
      FirstHitDetermined(keys, id, i);
    }
    var i := 0;
    while i < |features|
      invariant i <= |features|
      invariant PassesBefore(keys, id, i)
    {
      var feature := features[i];
      if feature.properties.None? {
        return Failure(TypeError);
      }
      if feature.properties.value.disruptionId == Str(id) {
        r := TransformRoad(feature.properties.value, feature.geometry, nowIso);
        return;
      }
      i := i + 1;
    }
    return Failure(NotFound(id));
  }
}
