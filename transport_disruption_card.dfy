// The helpers of the transport disruption card
// (src/components/content/TransportDisruptionCard.tsx): the badge colours of
// a status, the truncation of long names, and the disruption name shown.

module TransportDisruptionCard {
  import opened JsValues
  import opened Text
  import opened TransportDisruptions
  import Navigation

  /** The colours of the status badge. */
  datatype BadgeStyle = BadgeStyle(backgroundColor: string, textColor: string)

  const GREY: BadgeStyle := BadgeStyle("#6B7280", "#FFFFFF")

  /** The lower-cased statuses the badge has a colour for. */
  predicate KnownStatus(s: string) {
    s in {"severe delays", "no service", "suspended", "closed", "good service",
          "minor delays", "disruption", "closure", "suspension", "delay"}
  }

  /** `getStatusColor(status)`: the switch runs on the lower-cased status;
      unknown statuses are grey, only the two kinds of delay on a yellow or
      orange badge have dark text, and the three ways of saying the line
      does not run share one red. */
  function StatusColor(status: string): (style: BadgeStyle)
    ensures style == GREY <==> !KnownStatus(Lower(status))
    ensures style.textColor == "#000000" <==>
      Lower(status) == "severe delays" || Lower(status) == "minor delays"
    ensures style.backgroundColor == "#D52723" <==>
      Lower(status) in {"no service", "suspended", "closed"}
  {
    BadgeOf(Lower(status))
  }

  /** The switch itself, on the lower-cased status. */
  function BadgeOf(s: string): BadgeStyle {
    if s == "severe delays" then BadgeStyle("#FDB813", "#000000")
    else if s == "no service" then BadgeStyle("#D52723", "#FFFFFF")
    else if s == "suspended" then BadgeStyle("#D52723", "#FFFFFF")
    else if s == "closed" then BadgeStyle("#D52723", "#FFFFFF")
    else if s == "good service" then BadgeStyle("#10B981", "#FFFFFF")
    else if s == "minor delays" then BadgeStyle("#F59E0B", "#000000")
    else if s == "disruption" then BadgeStyle("#EA580C", "#FFFFFF")
    else if s == "closure" then BadgeStyle("#DC2626", "#FFFFFF")
    else if s == "suspension" then BadgeStyle("#991B1B", "#FFFFFF")
    else if s == "delay" then BadgeStyle("#D97706", "#FFFFFF")
    else GREY
  }

  /** Case does not matter: a status and its lower-cased form get the same
      badge. */
  lemma StatusColorIgnoresCase(status: string)
    ensures StatusColor(Lower(status)) == StatusColor(status)
  {
    LowerIdempotent(status);
  }

  /** The navigation list and the card colour the statuses the list knows
      alike: "Disruption", "Closure" and "Suspension" get the same
      background in both. */
  lemma ListAndCardAgree(status: string)
    requires status == "Disruption" || status == "Closure" || status == "Suspension"
    ensures StatusColor(status).backgroundColor == Navigation.StatusColor(status)
  {
    if status == "Disruption" {
      DisruptionBadge(status);
    } else if status == "Closure" {
      LowerCapitalised(status, "closure");
    } else {
      LowerCapitalised(status, "suspension");
    }
  }

  /** "Disruption", the status of a station whose first disruption has no
      type, is shown on an orange-red badge. */
  lemma DisruptionBadge(status: string)
    requires status == "Disruption"
    ensures StatusColor(status) == BadgeStyle("#EA580C", "#FFFFFF")
  {
    LowerCapitalised(status, "disruption");
  }

  /** A station record whose first disruption has no type carries the
      status "Disruption", which the card shows on an orange-red badge. */
  lemma UntypedDisruptionBadge(p: TransportProps, nowIso: string)
    requires var d := FirstDisruption(p.disruptions); !(d.Some? && Truthy(d.value.kind))
    ensures StatusColor(TransportOf(p, nowIso).status) == BadgeStyle("#EA580C", "#FFFFFF")
  {
    DisruptionBadge(TransportOf(p, nowIso).status);
  }

  /** At most `max` characters of `name`, then "..." when some were cut. */
  function Truncate(name: string, max: nat): (r: string)
    ensures |r| <= max + 3
    ensures |name| <= max ==> r == name
    ensures |name| > max ==> |r| == max + 3 && r[..max] == name[..max] && r[max..] == "..."
  {
    if |name| > max then name[..max] + "..." else name
  }

  /** Truncating twice is truncating once. */
  lemma TruncateIdempotent(name: string, max: nat)
    ensures Truncate(Truncate(name, max), max) == Truncate(name, max)
  {
    var r := Truncate(name, max);
    if |name| > max {
      assert r == r[..max] + r[max..];
    }
  }

  /** `truncateStationName(name)`: 25 characters and "...". */
  function TruncateStationName(name: string): (r: string)
    ensures |r| <= 28
    ensures |name| <= 25 ==> r == name
    ensures |name| > 25 ==> |r| == 28 && r[..25] == name[..25] && r[25..] == "..."
  {
    Truncate(name, 25)
  }

  /** `truncateDisruptionName(name)`: 17 characters and "...". */
  function TruncateDisruptionName(name: string): (r: string)
    ensures |r| <= 20
    ensures |name| <= 17 ==> r == name
    ensures |name| > 17 ==> |r| == 20 && r[..17] == name[..17] && r[17..] == "..."
  {
    Truncate(name, 17)
  }

  /** `firstDisruption?.description || data.description || 'Disruption'`:
      the name the card shows for a station record. */
  function DisruptionName(data: TransportDisruptionData): (name: string)
    ensures name != ""
    ensures var d := FirstDisruption(data.disruptions);
      d.Some? && Truthy(d.value.description) ==> name == d.value.description.s
    ensures var d := FirstDisruption(data.disruptions);
      !(d.Some? && Truthy(d.value.description)) ==>
        name == (if data.description != "" then data.description else "Disruption")
  {
    var d := FirstDisruption(data.disruptions);
    var first := if d.Some? then d.value.description else Undefined;
    OrElse(Or(first, Str(data.description)), "Disruption")
  }

  /** On a record from the resolver the card's name is the resolver's
      description: the first disruption's own, else the service followed by
      " disruption"; the "Disruption" fallback is never reached. */
  lemma DisruptionNameOfResolved(p: TransportProps, nowIso: string)
    ensures DisruptionName(TransportOf(p, nowIso)) == TransportOf(p, nowIso).description
  {
    var r := TransportOf(p, nowIso);
    assert FirstDisruption(r.disruptions) == FirstDisruption(p.disruptions);
  }
}
