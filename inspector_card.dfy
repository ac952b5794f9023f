// The helpers of the inspector card (src/components/content/InspectorCard.tsx):
// the label and icon of an inspector type, and the "time ago" text, which
// counts hours and minutes and has no day bucket.

module InspectorCard {
  import opened JsValues
  import opened Text
  import TimeUtils

  /** The bucket `formatTimeAgo` puts an elapsed time in.  NaN fails every
      comparison, so it reaches the hours-and-minutes branch. */
  datatype Elapsed = JustNow | Minutes(count: nat) | HoursMinutes(hours: nat, minutes: nat) | NaNHours

  /** Under a minute (future dates included), whole minutes under an hour,
      and from then on whole hours and the minutes left over, however many
      hours there are. */
  function ElapsedOf(d: Option<int>): (e: Elapsed)
    ensures e.NaNHours? <==> d.None?
    ensures e.JustNow? <==> d.Some? && d.value < 1
    ensures e.Minutes? <==> d.Some? && 1 <= d.value < 60
    ensures e.Minutes? ==> e.count == d.value
    ensures e.HoursMinutes? <==> d.Some? && 60 <= d.value
    ensures e.HoursMinutes? ==>
      1 <= e.hours && e.minutes < 60 && e.hours * 60 + e.minutes == d.value
  {
    if d.None? then NaNHours
    else if d.value < 1 then JustNow
    else if d.value < 60 then Minutes(d.value)
    else HoursMinutes(d.value / 60, d.value % 60)
  }

  /** The text of a bucket; whole hours leave the minutes out. */
  function Phrase(e: Elapsed): string {
    match e
    case JustNow => "Just now"
    case Minutes(n) => NatToString(n) + "min ago"
    case HoursMinutes(h, m) =>
      if m == 0 then NatToString(h) + "hr ago"
      else NatToString(h) + ("hr " + NatToString(m) + "min ago")
    case NaNHours => "NaNhr NaNmin ago"
  }

  /** Different buckets read differently. */
  lemma PhraseInjective(a: Elapsed, b: Elapsed)
    requires Phrase(a) == Phrase(b)
    ensures a == b
  {
    PhraseStart(a);
    PhraseStart(b);
    if a.Minutes? && b.Minutes? {
      NumberPrefixUnique(a.count, "min ago", b.count, "min ago");
    } else if a.Minutes? && b.HoursMinutes? {
      NumberPrefixUnique(a.count, "min ago", b.hours, Phrase(b)[|NatToString(b.hours)|..]);
    } else if a.HoursMinutes? && b.Minutes? {
      NumberPrefixUnique(a.hours, Phrase(a)[|NatToString(a.hours)|..], b.count, "min ago");
    } else if a.HoursMinutes? && b.HoursMinutes? {
      HoursMinutesInjective(a.hours, a.minutes, b.hours, b.minutes);
    }
  }

  lemma HoursMinutesInjective(h: nat, m: nat, h': nat, m': nat)
    requires Phrase(HoursMinutes(h, m)) == Phrase(HoursMinutes(h', m'))
    ensures h == h' && m == m'
  {
    var x := if m == 0 then "hr ago" else "hr " + NatToString(m) + "min ago";
    var y := if m' == 0 then "hr ago" else "hr " + NatToString(m') + "min ago";
    if m != 0 { MinutesTail(m); }
    if m' != 0 { MinutesTail(m'); }
    NumberPrefixUnique(h, x, h', y);
    if m != 0 && m' != 0 {
      assert x[3..] == y[3..];
      NumberPrefixUnique(m, "min ago", m', "min ago");
    }
  }

  /** The tail after the hour count, for a non-zero minute count. */
  lemma MinutesTail(m: nat)
    ensures var x := "hr " + NatToString(m) + "min ago";
      x[..3] == "hr " && x[3..] == NatToString(m) + "min ago" && x != "hr ago"
  {
    var x := "hr " + NatToString(m) + "min ago";
    assert x[3] == NatToString(m)[0];
    assert "hr ago"[3] == 'a';
  }

  /** The first character of a phrase: a digit exactly for the counted
      buckets. */
  lemma PhraseStart(e: Elapsed)
    ensures Phrase(e) != []
    ensures e.JustNow? ==> Phrase(e)[0] == 'J'
    ensures e.NaNHours? ==> Phrase(e)[0] == 'N'
    ensures e.Minutes? ==> IsDigit(Phrase(e)[0]) && Phrase(e) == NatToString(e.count) + "min ago"
    ensures e.HoursMinutes? ==>
      var n := NatToString(e.hours);
      Phrase(e)[..|n|] == n && Phrase(e)[|n|..] != [] && Phrase(e)[|n|] == 'h' &&
      Phrase(e) == n + Phrase(e)[|n|..]
  {
    if e.Minutes? {
      assert Phrase(e)[0] == NatToString(e.count)[0];
    }
  }

  /** `formatTimeAgo(timeString)` at time `now`, `time` standing for
      `new Date(timeString).getTime()`.  "Just now" is exactly the times
      less than a minute ago; an unparsable time reads "NaNhr NaNmin ago". */
  function FormatTimeAgo(now: int, time: Option<int>): (r: string)
    ensures r == "Just now" <==> time.Some? && now - time.value < TimeUtils.MINUTE_MS
    ensures time.None? ==> r == "NaNhr NaNmin ago"
  {
    var e := ElapsedOf(TimeUtils.ElapsedMinutes(now, time));
    PhraseInjectiveAt(e, JustNow);
    Phrase(e)
  }

  lemma PhraseInjectiveAt(a: Elapsed, b: Elapsed)
    ensures Phrase(a) == Phrase(b) <==> a == b
  {
    if Phrase(a) == Phrase(b) {
      PhraseInjective(a, b);
    }
  }

  /** Two times read the same exactly when they fall in the same bucket. */
  lemma SameTextSameElapsed(now: int, time: Option<int>, other: Option<int>)
    ensures FormatTimeAgo(now, time) == FormatTimeAgo(now, other) <==>
      ElapsedOf(TimeUtils.ElapsedMinutes(now, time)) == ElapsedOf(TimeUtils.ElapsedMinutes(now, other))
  {
    PhraseInjectiveAt(ElapsedOf(TimeUtils.ElapsedMinutes(now, time)), ElapsedOf(TimeUtils.ElapsedMinutes(now, other)));
  }

  /** An hour or more ago: hours and left-over minutes, however many hours. */
  lemma TimeAgoInHours(now: int, t: int, h: nat, m: nat)
    requires 1 <= h && m < 60
    requires (h * 60 + m) * TimeUtils.MINUTE_MS <= now - t < (h * 60 + m + 1) * TimeUtils.MINUTE_MS
    ensures m == 0 ==> FormatTimeAgo(now, Some(t)) == NatToString(h) + "hr ago"
    ensures m != 0 ==> FormatTimeAgo(now, Some(t)) == NatToString(h) + "hr " + NatToString(m) + "min ago"
  {
    ElapsedInHours(now, t, h, m);
  }

  lemma ElapsedInHours(now: int, t: int, h: nat, m: nat)
    requires 1 <= h && m < 60
    requires (h * 60 + m) * TimeUtils.MINUTE_MS <= now - t < (h * 60 + m + 1) * TimeUtils.MINUTE_MS
    ensures ElapsedOf(TimeUtils.ElapsedMinutes(now, Some(t))) == HoursMinutes(h, m)
  {
    var k := h * 60 + m;
    assert TimeUtils.ElapsedMinutes(now, Some(t)) == Some(k);
    assert k / 60 == h && k % 60 == m;
  }

  /** There is no day bucket: 1500 minutes ago reads "25hr ago". */
  lemma TwentyFiveHours(now: int)
    ensures FormatTimeAgo(now, Some(now - 1500 * TimeUtils.MINUTE_MS)) == "25hr ago"
  {
    TimeAgoInHours(now, now - 1500 * TimeUtils.MINUTE_MS, 25, 0);
    assert NatToString(25) == NatToString(2) + [DigitChar(5)];
  }

  /** `getTypeText()`: anything but a police check or a clear report,
      including a missing type, reads as a TfL stop check. */
  function TypeText(kind: JsString): (text: string)
    ensures text == "Police Stop Check" <==> kind == Str("police-check")
    ensures text == "Clear (No TfL / police)" <==> kind == Str("clear")
    ensures text == "TfL Stop Check" <==> kind != Str("police-check") && kind != Str("clear")
  {
    if kind == Str("tfl") then "TfL Stop Check"
    else if kind == Str("police-check") then "Police Stop Check"
    else if kind == Str("clear") then "Clear (No TfL / police)"
    else "TfL Stop Check"
  }

  const POLICE_ICON: string := "/Icons/inpectors_icons/police.png"
  const ALERT_ICON: string := "/Icons/inpectors_icons/alert.png"
  const LIKE_ICON: string := "/Icons/inpectors_icons/white_like.png"

  /** `getTypeIcon()`: the alert icon for a police check, the thumbs-up for
      a clear report, and the police icon for everything else. */
  function TypeIcon(kind: JsString): (icon: string)
    ensures icon == ALERT_ICON <==> kind == Str("police-check")
    ensures icon == LIKE_ICON <==> kind == Str("clear")
    ensures icon == POLICE_ICON <==> kind != Str("police-check") && kind != Str("clear")
  {
    if kind == Str("tfl") then POLICE_ICON
    else if kind == Str("police-check") then ALERT_ICON
    else if kind == Str("clear") then LIKE_ICON
    else POLICE_ICON
  }

  /** The icon goes with the label: a card never shows one type's label
      with another's icon. */
  lemma IconFollowsText(kind: JsString, other: JsString)
    ensures TypeText(kind) == TypeText(other) <==> TypeIcon(kind) == TypeIcon(other)
  {
  }
}
