// src/lib/utils/timeUtils.ts: how long ago a timestamp was, in whole
// minutes, and the "x minutes/hours/days ago" phrase and live flag built
// from it.  The current time is a parameter; a timestamp is a number of
// milliseconds, or `None` for an invalid Date, whose `getTime()` is NaN.

module TimeUtils {
  import opened JsValues
  import opened Text

  const MINUTE_MS: int := 1000 * 60
  const HOUR_MINUTES: int := 60
  const DAY_MINUTES: int := 1440

  /** `Math.floor((now - date) / (1000 * 60))`: the whole minutes elapsed
      since `date`, negative for a date in the future; `None` (NaN) when
      the date is invalid. */
  function ElapsedMinutes(now: int, date: Option<int>): (d: Option<int>)
    ensures d.Some? <==> date.Some?
    ensures d.Some? ==>
      d.value * MINUTE_MS <= now - date.value < d.value * MINUTE_MS + MINUTE_MS
  {
    if date.Some? then Some((now - date.value) / MINUTE_MS) else None
  }

  /** The bucket `formatRelativeTime` puts an elapsed time in.  NaN fails
      every comparison, so it falls through to the day branch. */
  datatype Age = JustNow | Minutes(count: nat) | Hours(count: nat) | Days(count: nat) | NaNDays

  /** The bucket of an elapsed-minutes value: under a minute (which takes
      in every future date), whole minutes under an hour, whole hours under
      a day, then whole days. */
  function AgeOf(d: Option<int>): (a: Age)
    ensures a.NaNDays? <==> d.None?
    ensures a.JustNow? <==> d.Some? && d.value < 1
    ensures a.Minutes? <==> d.Some? && 1 <= d.value < HOUR_MINUTES
    ensures a.Hours? <==> d.Some? && HOUR_MINUTES <= d.value < DAY_MINUTES
    ensures a.Days? <==> d.Some? && DAY_MINUTES <= d.value
    ensures a.Minutes? ==> a.count == d.value
    ensures a.Hours? ==>
      1 <= a.count <= 23 &&
      a.count * HOUR_MINUTES <= d.value < a.count * HOUR_MINUTES + HOUR_MINUTES
    ensures a.Days? ==>
      1 <= a.count &&
      a.count * DAY_MINUTES <= d.value < a.count * DAY_MINUTES + DAY_MINUTES
  {
    if d.None? then NaNDays
    else if d.value < 1 then JustNow
    else if d.value < HOUR_MINUTES then Minutes(d.value)
    else if d.value < DAY_MINUTES then Hours(d.value / HOUR_MINUTES)
    else Days(d.value / DAY_MINUTES)
  }

  /** "s" when the count is more than one. */
  function Plural(n: nat): string {
    if n > 1 then "s" else ""
  }

  /** The text of a bucket.  The minutes phrase is always plural; hours
      and days are singular for one. */
  function Phrase(a: Age): string {
    match a
    case JustNow => "Just now"
    case Minutes(n) => NatToString(n) + " minutes ago"
    case Hours(n) => NatToString(n) + " hour" + Plural(n) + " ago"
    case Days(n) => NatToString(n) + " day" + Plural(n) + " ago"
    case NaNDays => "NaN day ago"
  }

  /** Different buckets read differently, so the phrase tells the bucket. */
  lemma PhraseInjective(a: Age, b: Age)
    requires Phrase(a) == Phrase(b)
    ensures a == b
  {
    match a
    case JustNow =>
      assert Phrase(a)[0] == 'J';
      PhraseStart(b);
    case NaNDays =>
      assert Phrase(a)[0] == 'N';
      PhraseStart(b);
    case Minutes(m) =>
      PhraseStart(b);
      match b {
        case Minutes(n) => NumberPrefixUnique(m, " minutes ago", n, " minutes ago");
        case Hours(n) => HoursTail(n); NumberPrefixUnique(m, " minutes ago", n, " hour" + Plural(n) + " ago");
        case Days(n) => DaysTail(n); NumberPrefixUnique(m, " minutes ago", n, " day" + Plural(n) + " ago");
        case _ =>
      }
    case Hours(m) =>
      PhraseStart(b);
      HoursTail(m);
      match b {
        case Minutes(n) => NumberPrefixUnique(m, " hour" + Plural(m) + " ago", n, " minutes ago");
        case Hours(n) =>
          HoursTail(n);
          NumberPrefixUnique(m, " hour" + Plural(m) + " ago", n, " hour" + Plural(n) + " ago");
        case Days(n) =>
          DaysTail(n);
          NumberPrefixUnique(m, " hour" + Plural(m) + " ago", n, " day" + Plural(n) + " ago");
        case _ =>
      }
    case Days(m) =>
      PhraseStart(b);
      DaysTail(m);
      match b {
        case Minutes(n) => NumberPrefixUnique(m, " day" + Plural(m) + " ago", n, " minutes ago");
        case Hours(n) =>
          HoursTail(n);
          NumberPrefixUnique(m, " day" + Plural(m) + " ago", n, " hour" + Plural(n) + " ago");
        case Days(n) =>
          DaysTail(n);
          NumberPrefixUnique(m, " day" + Plural(m) + " ago", n, " day" + Plural(n) + " ago");
        case _ =>
      }
  }

  /** The first character of a phrase: a digit exactly for the counted
      buckets. */
  lemma PhraseStart(a: Age)
    ensures Phrase(a) != []
    ensures a.JustNow? ==> Phrase(a)[0] == 'J'
    ensures a.NaNDays? ==> Phrase(a)[0] == 'N'
    ensures !a.JustNow? && !a.NaNDays? ==> IsDigit(Phrase(a)[0])
  {
    if !a.JustNow? && !a.NaNDays? {
      assert Phrase(a)[0] == NatToString(a.count)[0];
    }
  }

  lemma HoursTail(n: nat)
    ensures NatToString(n) + " hour" + Plural(n) + " ago" == NatToString(n) + (" hour" + Plural(n) + " ago")
  {
  }

  lemma DaysTail(n: nat)
    ensures NatToString(n) + " day" + Plural(n) + " ago" == NatToString(n) + (" day" + Plural(n) + " ago")
  {
  }

  /** `formatRelativeTime(date)` at time `now`.  "Just now" is exactly the
      dates less than a minute ago, future dates included; an invalid date
      reads "NaN day ago". */
  function FormatRelativeTime(now: int, date: Option<int>): (r: string)
    ensures r == "Just now" <==> date.Some? && now - date.value < MINUTE_MS
    ensures date.None? ==> r == "NaN day ago"
  {
    var a := AgeOf(ElapsedMinutes(now, date));
    PhraseInjectiveAt(a, JustNow);
    Phrase(a)
  }

  lemma PhraseInjectiveAt(a: Age, b: Age)
    ensures Phrase(a) == Phrase(b) <==> a == b
  {
    if Phrase(a) == Phrase(b) {
      PhraseInjective(a, b);
    }
  }

  /** Two dates read the same exactly when they fall in the same bucket. */
  lemma SamePhraseSameAge(now: int, date: Option<int>, other: Option<int>)
    ensures FormatRelativeTime(now, date) == FormatRelativeTime(now, other) <==>
      AgeOf(ElapsedMinutes(now, date)) == AgeOf(ElapsedMinutes(now, other))
  {
    PhraseInjectiveAt(AgeOf(ElapsedMinutes(now, date)), AgeOf(ElapsedMinutes(now, other)));
  }

  /** Between one and sixty minutes ago: the count of whole minutes,
      always with a plural "minutes", so one minute reads "1 minutes ago". */
  lemma RelativeTimeInMinutes(now: int, t: int, n: nat)
    requires 1 <= n < HOUR_MINUTES
    requires n * MINUTE_MS <= now - t < n * MINUTE_MS + MINUTE_MS
    ensures FormatRelativeTime(now, Some(t)) == NatToString(n) + " minutes ago"
  {
    assert ElapsedMinutes(now, Some(t)) == Some(n);
  }

  /** Between one hour and one day ago: the whole hours, singular for one. */
  lemma RelativeTimeInHours(now: int, t: int, h: nat)
    requires 1 <= h <= 23
    requires h * HOUR_MINUTES * MINUTE_MS <= now - t < (h + 1) * HOUR_MINUTES * MINUTE_MS
    ensures h == 1 ==> FormatRelativeTime(now, Some(t)) == "1 hour ago"
    ensures h > 1 ==> FormatRelativeTime(now, Some(t)) == NatToString(h) + " hours ago"
  {
    var d := ElapsedMinutes(now, Some(t)).value;
    assert h * HOUR_MINUTES <= d < h * HOUR_MINUTES + HOUR_MINUTES;
    assert AgeOf(Some(d)) == Hours(h);
  }

  /** A day or more ago: the whole days, singular for one. */
  lemma RelativeTimeInDays(now: int, t: int, n: nat)
    requires 1 <= n
    requires n * DAY_MINUTES * MINUTE_MS <= now - t < (n + 1) * DAY_MINUTES * MINUTE_MS
    ensures n == 1 ==> FormatRelativeTime(now, Some(t)) == "1 day ago"
    ensures n > 1 ==> FormatRelativeTime(now, Some(t)) == NatToString(n) + " days ago"
  {
    var d := ElapsedMinutes(now, Some(t)).value;
    assert n * DAY_MINUTES <= d < n * DAY_MINUTES + DAY_MINUTES;
    assert AgeOf(Some(d)) == Days(n);
  }

  /** `isLive(lastUpdated)`: at most five whole minutes elapsed, that is,
      updated less than six minutes ago or in the future; never for an
      invalid date. */
  function IsLive(now: int, lastUpdated: Option<int>): (live: bool)
    ensures live <==> lastUpdated.Some? && now - lastUpdated.value < 6 * MINUTE_MS
  {
    var d := ElapsedMinutes(now, lastUpdated);
    d.Some? && d.value <= 5
  }

  /** Whatever reads "Just now" is live. */
  lemma JustNowIsLive(now: int, date: Option<int>)
    requires FormatRelativeTime(now, date) == "Just now"
    ensures IsLive(now, date)
  {
  }
}
