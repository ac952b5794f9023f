// The helpers of a navigation list card (src/components/navigation/NavigationCard.tsx):
// the short "time ago" text, which uses the same buckets as the relative
// time in src/lib/utils/timeUtils.ts, and the label of an item's type.

module NavigationCard {
  import opened JsValues
  import opened Text
  import opened TimeUtils
  import Navigation

  /** The short text of a bucket: "m", "h" and "d" for minutes, hours and
      days, with no plural. */
  function ShortPhrase(a: Age): string {
    match a
    case JustNow => "Just now"
    case Minutes(n) => NatToString(n) + "m ago"
    case Hours(n) => NatToString(n) + "h ago"
    case Days(n) => NatToString(n) + "d ago"
    case NaNDays => "NaNd ago"
  }

  /** The first character of a short phrase: a digit exactly for the
      counted buckets. */
  lemma ShortPhraseStart(a: Age)
    ensures ShortPhrase(a) != []
    ensures a.JustNow? ==> ShortPhrase(a)[0] == 'J'
    ensures a.NaNDays? ==> ShortPhrase(a)[0] == 'N'
    ensures !a.JustNow? && !a.NaNDays? ==> IsDigit(ShortPhrase(a)[0])
  {
    if !a.JustNow? && !a.NaNDays? {
      assert ShortPhrase(a)[0] == NatToString(a.count)[0];
    }
  }

  /** The unit letter after the count. */
  function Unit(a: Age): string
    requires !a.JustNow? && !a.NaNDays?
  {
    if a.Minutes? then "m ago" else if a.Hours? then "h ago" else "d ago"
  }

  /** Different buckets read differently. */
  lemma ShortPhraseInjective(a: Age, b: Age)
    requires ShortPhrase(a) == ShortPhrase(b)
    ensures a == b
  {
    ShortPhraseStart(a);
    ShortPhraseStart(b);
    if !a.JustNow? && !a.NaNDays? && !b.JustNow? && !b.NaNDays? {
      NumberPrefixUnique(a.count, Unit(a), b.count, Unit(b));
    }
  }

  lemma ShortPhraseInjectiveAt(a: Age, b: Age)
    ensures ShortPhrase(a) == ShortPhrase(b) <==> a == b
  {
    if ShortPhrase(a) == ShortPhrase(b) {
      ShortPhraseInjective(a, b);
    }
  }

  /** `formatTimeAgo(dateString)` at time `now`, `date` standing for
      `new Date(dateString).getTime()`.  "Just now" is exactly the dates
      less than a minute ago; an unparsable date reads "NaNd ago", since
      nothing in the `try` block throws. */
  function FormatTimeAgo(now: int, date: Option<int>): (r: string)
    ensures r == "Just now" <==> date.Some? && now - date.value < MINUTE_MS
    ensures date.None? ==> r == "NaNd ago"
  {
    var a := AgeOf(ElapsedMinutes(now, date));
    ShortPhraseInjectiveAt(a, JustNow);
    ShortPhrase(a)
  }

  /** The card and the relative time of the detail pages group dates the
      same way: two dates share a short text exactly when they share a
      relative-time phrase. */
  lemma SameBucketsAsRelativeTime(now: int, date: Option<int>, other: Option<int>)
    ensures FormatTimeAgo(now, date) == FormatTimeAgo(now, other) <==>
      FormatRelativeTime(now, date) == FormatRelativeTime(now, other)
  {
    var a, b := AgeOf(ElapsedMinutes(now, date)), AgeOf(ElapsedMinutes(now, other));
    ShortPhraseInjectiveAt(a, b);
    SamePhraseSameAge(now, date, other);
  }

  /** Between one hour and one day ago: the whole hours, from 1 to 23. */
  lemma TimeAgoInHours(now: int, t: int)
    requires HOUR_MINUTES * MINUTE_MS <= now - t < DAY_MINUTES * MINUTE_MS
    ensures exists h: nat ::
      && 1 <= h <= 23
      && h * HOUR_MINUTES * MINUTE_MS <= now - t < (h + 1) * HOUR_MINUTES * MINUTE_MS
      && FormatTimeAgo(now, Some(t)) == NatToString(h) + "h ago"
  {
    var d := ElapsedMinutes(now, Some(t)).value;
    var a := AgeOf(Some(d));
    assert a.Hours?;
    var h := a.count;
    assert h * HOUR_MINUTES * MINUTE_MS <= now - t < (h + 1) * HOUR_MINUTES * MINUTE_MS;
    assert FormatTimeAgo(now, Some(t)) == NatToString(h) + "h ago";
  }

  /** Between one minute and one hour ago: the whole minutes, from 1 to 59. */
  lemma TimeAgoInMinutes(now: int, t: int, n: nat)
    requires 1 <= n < HOUR_MINUTES
    requires n * MINUTE_MS <= now - t < n * MINUTE_MS + MINUTE_MS
    ensures FormatTimeAgo(now, Some(t)) == NatToString(n) + "m ago"
  {
    assert ElapsedMinutes(now, Some(t)) == Some(n);
  }

  /** A day or more ago: the whole days. */
  lemma TimeAgoInDays(now: int, t: int, n: nat)
    requires 1 <= n
    requires n * DAY_MINUTES * MINUTE_MS <= now - t < (n + 1) * DAY_MINUTES * MINUTE_MS
    ensures FormatTimeAgo(now, Some(t)) == NatToString(n) + "d ago"
  {
    var d := ElapsedMinutes(now, Some(t)).value;
    assert n * DAY_MINUTES <= d < n * DAY_MINUTES + DAY_MINUTES;
    assert AgeOf(Some(d)) == Days(n);
  }

  /** The `type` string each navigation builder writes. */
  function KindName(kind: Navigation.ItemKind): string {
    match kind
    case RoadDisruptionItem => "road-disruption"
    case InspectorItem => "inspector"
    case EventItem => "event"
    case TransportDisruptionItem => "transport-disruption"
  }

  /** `getTypeLabel(type)`: total, with "Unknown" for any type no builder
      writes. */
  function TypeLabel(kind: string): (caption: string)
    ensures caption == "Unknown" <==>
      kind != "road-disruption" && kind != "inspector" && kind != "event" && kind != "transport-disruption"
  {
    if kind == "road-disruption" then "Road Disruption"
    else if kind == "inspector" then "Inspector Check"
    else if kind == "event" then "Event"
    else if kind == "transport-disruption" then "Transport Disruption"
    else "Unknown"
  }

  /** Every item the builders produce gets its own label, never "Unknown". */
  lemma ItemsAreLabelled(kind: Navigation.ItemKind, other: Navigation.ItemKind)
    ensures TypeLabel(KindName(kind)) != "Unknown"
    ensures TypeLabel(KindName(kind)) == TypeLabel(KindName(other)) <==> kind == other
  {
  }
}
