// The helpers of the full-screen map (src/components/ui/MapMaximizer.tsx):
// the marker icon for a severity or report type, and the road name shown
// beside a road badge, stripped of brackets and of the road code and
// padded so that it clears the badge.

module MapMaximizer {
  import opened JsValues
  import opened Text
  import InspectorCard

  const SERIOUS_ICON: string := "/Icons/message_status_icons/serious.png"
  const SEVERE_ICON: string := "/Icons/message_status_icons/severe.png"
  const CLOSURE_ICON: string := "/Icons/message_status_icons/closure.png"
  const MODERATE_ICON: string := "/Icons/message_status_icons/moderate.png"

  /** `getSeverityIcon(type)`: a status icon for the three serious road
      severities, the inspector icons for the three inspector types, and
      the moderate icon for everything else, events and transport
      disruptions included. */
  function SeverityIcon(kind: string): (icon: string)
    ensures icon == MODERATE_ICON <==>
      kind !in {"Serious", "Severe", "Closure", "tfl", "police-check", "clear"}
    ensures kind in {"tfl", "police-check", "clear"} ==> icon == InspectorCard.TypeIcon(Str(kind))
    ensures kind !in {"tfl", "police-check", "clear"} ==>
      icon in {SERIOUS_ICON, SEVERE_ICON, CLOSURE_ICON, MODERATE_ICON}
  {
    if kind == "Serious" then SERIOUS_ICON
    else if kind == "Severe" then SEVERE_ICON
    else if kind == "Closure" then CLOSURE_ICON
    else if kind == "Moderate" then MODERATE_ICON
    else if kind == "tfl" then InspectorCard.POLICE_ICON
    else if kind == "police-check" then InspectorCard.ALERT_ICON
    else if kind == "clear" then InspectorCard.LIKE_ICON
    else if kind == "event" then MODERATE_ICON
    else if kind == "transport-disruption" then MODERATE_ICON
    else MODERATE_ICON
  }

  predicate IsBracket(c: char) { c == '[' || c == ']' }

  predicate NoBrackets(s: string) {
    forall i :: 0 <= i < |s| ==> !IsBracket(s[i])
  }

  /** `name.replace(/[\[\]]/g, '')`: every square bracket removed, every
      other character kept in order. */
  function RemoveBrackets(s: string): (r: string)
    ensures |r| <= |s|
    ensures NoBrackets(r)
    ensures NoBrackets(s) ==> r == s
  {
    if s == [] then []
    else (if IsBracket(s[0]) then [] else [s[0]]) + RemoveBrackets(s[1..])
  }

  /** Removing brackets works piece by piece. */
  lemma {:induction false} RemoveBracketsAppend(a: string, b: string)
    ensures RemoveBrackets(a + b) == RemoveBrackets(a) + RemoveBrackets(b)
  {
    if a != [] {
      RemoveBracketsAppend(a[1..], b);
      RemoveBracketsAppendStep(a, b);
    } else {
      assert a + b == b;
    }
  }

  /** The inductive step: the first character of `a` is dropped or kept
      in front of what the rest of `a` and `b` give. */
  lemma RemoveBracketsAppendStep(a: string, b: string)
    requires a != []
    requires RemoveBrackets(a[1..] + b) == RemoveBrackets(a[1..]) + RemoveBrackets(b)
    ensures RemoveBrackets(a + b) == RemoveBrackets(a) + RemoveBrackets(b)
  {
    var head := if IsBracket(a[0]) then [] else [a[0]];
    RemoveBracketsCons(a);
    RemoveBracketsHeadOfAppend(a, b);
    ConcatAssociative(head, RemoveBrackets(a[1..]), RemoveBrackets(b));
  }

  /** One unfolding of `RemoveBrackets`. */
  lemma RemoveBracketsCons(s: string)
    requires s != []
    ensures RemoveBrackets(s) == (if IsBracket(s[0]) then [] else [s[0]]) + RemoveBrackets(s[1..])
  {
  }

  /** One unfolding of `RemoveBrackets` on `a + b`, in terms of `a`. */
  lemma RemoveBracketsHeadOfAppend(a: string, b: string)
    requires a != []
    ensures RemoveBrackets(a + b) ==
      (if IsBracket(a[0]) then [] else [a[0]]) + RemoveBrackets(a[1..] + b)
  {
    assert (a + b)[0] == a[0] && (a + b)[1..] == a[1..] + b;
  }

  /** `n` spaces. */
  function Spaces(n: nat): (s: string)
    ensures |s| == n && forall i :: 0 <= i < n ==> s[i] == ' '
  {
    seq(n, i => ' ')
  }

  /** The padding before a road name: by the badge width, one space more
      for a motorway. */
  function Padding(motorway: bool, width: nat): (p: string)
    ensures forall i :: 0 <= i < |p| ==> p[i] == ' '
    ensures 6 <= |p| <= 12
  {
    if width == 1 then (if motorway then Spaces(7) else Spaces(6))
    else if width == 2 then (if motorway then Spaces(9) else Spaces(8))
    else if width == 3 then (if motorway then Spaces(10) else Spaces(9))
    else (if motorway then Spaces(12) else Spaces(11))
  }

  /** A motorway badge needs exactly one space more than any other badge of
      the same width, and a wider number never gets less padding; a missing
      number (width 0) gets the most. */
  lemma PaddingFitsBadge(width: nat, wider: nat)
    ensures |Padding(true, width)| == |Padding(false, width)| + 1
    ensures 1 <= width <= wider ==>
      |Padding(false, width)| <= |Padding(false, wider)| &&
      |Padding(true, width)| <= |Padding(true, wider)|
    ensures |Padding(false, width)| <= |Padding(false, 0)|
  {
  }

  /** `roadNumber?.length || 0`: the length of the road number, 0 when
      there is none. */
  function BadgeWidth(roadNumber: JsString): (width: nat)
    ensures roadNumber.Str? ==> width == |roadNumber.s|
    ensures !roadNumber.Str? ==> width == 0
  {
    if roadNumber.Str? then |roadNumber.s| else 0
  }

  /** The text of the name once brackets and a leading road code are gone,
      or the name as given when nothing would be left. */
  function CleanedText(name: string, code: string): (t: string)
    ensures t == "" ==> name == ""
    ensures StartsWith(RemoveBrackets(name), code) ==> t == name || IsTrimmed(t)
    ensures StartsWith(RemoveBrackets(name), code) && Trim(RemoveBrackets(name)[|code|..]) != "" ==>
      t == Trim(RemoveBrackets(name)[|code|..])
    ensures StartsWith(RemoveBrackets(name), code) && Trim(RemoveBrackets(name)[|code|..]) == "" ==>
      t == name
    ensures !StartsWith(RemoveBrackets(name), code) ==>
      t == (if RemoveBrackets(name) == "" then name else RemoveBrackets(name))
  {
    var unbracketed := RemoveBrackets(name);
    var stripped := if StartsWith(unbracketed, code) then Trim(unbracketed[|code|..]) else unbracketed;
    if stripped == "" then name else stripped
  }

  /** What `cleanRoadName(name)` returns for the map's `roadType` and
      `roadNumber`: a street name as given; any other name cleaned and
      padded.  The road code is the two props printed one after the other,
      so a missing one prints as "undefined". */
  function RoadNameShown(name: string, roadType: JsString, roadNumber: JsString): string {
    if roadType == Str("Street") then name
    else
      Padding(roadType == Str("M"), BadgeWidth(roadNumber)) +
      CleanedText(name, Render(roadType) + Render(roadNumber))
  }

  /** `cleanRoadName(name)`, step by step as the component does it.  The
      component's second test, for the code followed by a space, is not
      here: it can never be reached (`ElseBranchUnreachable`). */
  method CleanRoadName(name: string, roadType: JsString, roadNumber: JsString) returns (shown: string)
    ensures shown == RoadNameShown(name, roadType, roadNumber)
  {
    if roadType == Str("Street") {
      return name;
    }
    var cleanName := RemoveBrackets(name);
    var roadCode := Render(roadType) + Render(roadNumber);
    if StartsWith(cleanName, roadCode) {
      cleanName := Trim(cleanName[|roadCode|..]);
    }
    if cleanName == "" {
      cleanName := name;
    }
    var spacePadding := "";
    var badgeWidth := if roadNumber.Str? then |roadNumber.s| else 0;
    if badgeWidth == 1 {
      spacePadding := if roadType == Str("M") then Spaces(7) else Spaces(6);
    } else if badgeWidth == 2 {
      spacePadding := if roadType == Str("M") then Spaces(9) else Spaces(8);
    } else if badgeWidth == 3 {
      spacePadding := if roadType == Str("M") then Spaces(10) else Spaces(9);
    } else {
      spacePadding := if roadType == Str("M") then Spaces(12) else Spaces(11);
    }
    return spacePadding + cleanName;
  }

  /** A name that starts with the code and a space already starts with the
      code, so the `else if` of the component never runs. */
  lemma ElseBranchUnreachable(cleanName: string, roadCode: string)
    requires StartsWith(cleanName, roadCode + " ")
    ensures StartsWith(cleanName, roadCode)
  {
    assert cleanName[..|roadCode|] == (cleanName[..|roadCode| + 1])[..|roadCode|];
  }

  /** A street name is shown as it is, brackets and all, with no padding. */
  lemma StreetNameUnchanged(name: string, roadNumber: JsString)
    ensures RoadNameShown(name, Str("Street"), roadNumber) == name
  {
  }

  /** A name that is nothing but its road code and brackets is shown as
      given after the padding, brackets included. */
  lemma OnlyCodeKeepsName(name: string, kind: string, number: string)
    requires kind != "Street"
    requires RemoveBrackets(name) == kind + number
    ensures RoadNameShown(name, Str(kind), Str(number)) ==
      Padding(kind == "M", |number|) + name
  {
    OnlyCodeCleansToName(name, kind + number);
  }

  /** Text that is nothing but the code leaves nothing to show, so the
      name stays. */
  lemma OnlyCodeCleansToName(name: string, code: string)
    requires RemoveBrackets(name) == code
    ensures CleanedText(name, code) == name
  {
    assert StartsWith(RemoveBrackets(name), code);
    assert RemoveBrackets(name)[|code|..] == [];
    assert Trim([]) == [];
  }

  /** Trimming a single leading space off a trimmed word. */
  lemma TrimLeadingSpace(rest: string)
    requires rest != [] && IsTrimmed(rest)
    ensures Trim(" " + rest) == rest
  {
    var s := " " + rest;
    assert SpaceRunEnd(s, 1) == 1;
    assert SpaceRunEnd(s, 0) == 1;
    assert SpaceRunStart(s, 1, |s|) == |s|;
    assert s[1..] == rest;
  }

  lemma BracketLiterals()
    ensures RemoveBrackets("[") == []
    ensures RemoveBrackets("] ") == " "
  {
    assert "] "[1..] == " ";
  }

  /** "[" code "] " rest loses exactly its two brackets. */
  lemma UnbracketedName(code: string, rest: string)
    requires NoBrackets(code) && NoBrackets(rest)
    ensures RemoveBrackets("[" + code + "] " + rest) == code + " " + rest
  {
    var opening := "[" + code;
    var closing := opening + "] ";
    BracketLiterals();
    calc {
      RemoveBrackets(closing + rest);
      { RemoveBracketsAppend(closing, rest); }
      RemoveBrackets(closing) + RemoveBrackets(rest);
      RemoveBrackets(closing) + rest;
      { RemoveBracketsAppend(opening, "] "); }
      (RemoveBrackets(opening) + " ") + rest;
      { RemoveBracketsAppend("[", code); }
      (([] + RemoveBrackets(code)) + " ") + rest;
      { assert [] + code == code; }
      code + " " + rest;
    }
  }

  /** Text that is the code, a space and a trimmed rest cleans to the rest. */
  lemma CleanedCodeAndRest(name: string, code: string, rest: string)
    requires rest != [] && IsTrimmed(rest)
    requires RemoveBrackets(name) == code + " " + rest
    ensures CleanedText(name, code) == rest
  {
    var unbracketed := RemoveBrackets(name);
    assert unbracketed[..|code|] == code;
    assert unbracketed[|code|..] == " " + rest;
    TrimLeadingSpace(rest);
  }

  /** The usual name "[A3] Kennington Road": brackets and code go, the
      rest is shown after the padding for the badge. */
  lemma StripsBracketedCode(kind: string, number: string, rest: string)
    requires kind != "Street"
    requires NoBrackets(kind + number) && NoBrackets(rest)
    requires rest != [] && IsTrimmed(rest)
    ensures RoadNameShown("[" + (kind + number) + "] " + rest, Str(kind), Str(number)) ==
      Padding(kind == "M", |number|) + rest
  {
    UnbracketedName(kind + number, rest);
    CleanedCodeAndRest("[" + (kind + number) + "] " + rest, kind + number, rest);
  }
}
