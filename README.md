# CabRadar web core in Dafny

CabRadar shows London drivers four kinds of live reports:
- road disruptions;
- ticket-inspector and police stop checks;
- events;
- public-transport disruptions.

Each kind has a detail page reached through a URL slug, and a short navigation list. This project models the logic behind those pages and lists, and proves its properties. The parts modelled are:

- the **slug codec**: `createSlug`, the four `create*Slug` helpers and `extractIdFromSlug`.
- **road-code handling**:
  - `parseRoadCodes`, a scanner for `[A302]`/`[M25]` tokens;
  - `sortRoads`, an in-place sort with M roads first, then a numeric-aware number order;
  - `extractStreetNames`.
- the **detail resolvers** `getRoadDisruption`, `getEvent`, `getInspector` and `getTransportDisruption`, modelled after the fetch. Each one:
  - is a linear search of the feed's features for the requested id;
  - maps the match to the page's record, with `||` defaults.
- the **navigation builders**: the four `getAvailable*` functions. Each walks the feature list, lists at most `limit` items, and answers `[]` when a mapping throws.
- the **display helpers**:
  - `formatRelativeTime` and `isLive`;
  - the "time ago" texts of the inspector card and of the navigation card;
  - the type labels and icons;
  - the status colours and name truncation of the transport card;
  - the road-name cleaning and padding of the full-screen map;
  - the severity icon of the full-screen map.

JavaScript values are modelled explicitly:
- An optional string property is `JsString` (`Undefined`, `Null` or `Str(s)`).
- `a || b` falls through when `a` is absent, null or empty.
- A template literal prints `undefined`/`null`.
- A timestamp is a number of milliseconds, or `None` for an invalid `Date`, whose arithmetic gives NaN. The current time is a parameter.
- Thrown errors are `Failure` results:
  - `ApiError(status)` for a non-ok response;
  - `NotFound(id)`;
  - `TypeError` for a property read on `undefined`.

Imperative source code stays imperative in the model. `parseRoadCodes`, the search loops of the resolvers, the builders' `forEach` and `cleanRoadName` are methods with loops or step-by-step updates. `sortRoads` is an insertion sort on an `array`, and its method is proved against the specification function `RoadSort.Sort`. That function is proved sorted, a permutation, and stable.

Where the code and its comments or its documentation disagree, the model follows the code:
- `createSlug` deletes punctuation rather than turning it into a hyphen.
- With an empty name, a slug's base is the lower-cased id.
- The resolvers match on id equality.
- The padding in `cleanRoadName` is 7/6, 9/8, 10/9 and 12/11 spaces (motorway/other), whatever the comments beside it say.

## Model

| member | source | states |
|---|---|---|
| JsValues.Or | src/lib/api/events.ts:37 | `v \|\| w` on string values: `v` when it is a non-empty string, otherwise `w` |
| JsValues.OrElse | src/lib/api/events.ts:37 | `v \|\| 'literal'`: the value when truthy, else the literal; never undefined or null |
| JsValues.Render | src/lib/api/events.ts:53 | a template literal prints a string as itself and absent/null values as "undefined"/"null" |
| SlugUtils.DeleteSpecial | src/lib/utils/slugUtils.ts:9 | every character outside `[a-z0-9\s-]` is deleted; the rest is kept; text with nothing to delete is unchanged |
| SlugUtils.ReplaceRuns | src/lib/utils/slugUtils.ts:10-11 | a run replacement is empty only on empty input and starts with `-` exactly when the input starts with a replaced character or a hyphen |
| SlugUtils.ReplaceRunsPrefix | src/lib/utils/slugUtils.ts:10-11 | a prefix with no character of the run class passes through the replacement unchanged |
| SlugUtils.CollapsedHasNoDoubleHyphen | src/lib/utils/slugUtils.ts:11 | after `/-+/g → '-'` no two hyphens are adjacent |
| SlugUtils.StripHyphenEnds | src/lib/utils/slugUtils.ts:12 | removing one leading and one trailing hyphen leaves no hyphen at either end (for text without double hyphens) and yields a slice of the input |
| SlugUtils.CreateSlug | src/lib/utils/slugUtils.ts:6-13 | the slug uses only `[a-z0-9-]`, has no hyphen at either end and no `--` |
| SlugUtils.CreateSlugFixesSlugs | src/lib/utils/slugUtils.ts:6-13 | a string that is already a slug is its own slug |
| SlugUtils.CreateSlugIdempotent | src/lib/utils/slugUtils.ts:6-13 | slugging a slug changes nothing |
| SlugUtils.CreateSlugDeletesPunctuation | src/lib/utils/slugUtils.ts:9 | a punctuation character is deleted, not hyphenated: the slug is the slug of the text without it |
| SlugUtils.CreateSlugOfWord | src/lib/utils/slugUtils.ts:8-12 | the slug of one alphanumeric word is the word lower-cased |
| SlugUtils.CreateSlugJoinsWords | src/lib/utils/slugUtils.ts:10 | words separated by a space are joined by one hyphen |
| SlugUtils.CreateSlugStJohnsWood | src/lib/utils/slugUtils.ts:9-10 | "St. John's Wood" shapes give "st-johns-wood" shapes: the period and apostrophe disappear |
| SlugUtils.ExtractIdFromSlug | src/lib/utils/slugUtils.ts:42-45 | total; the result is a hyphen-free suffix of the slug, preceded by a hyphen unless it is the whole slug |
| SlugUtils.ExtractAfterHyphen | src/lib/utils/slugUtils.ts:42-45 | whatever precedes the last hyphen, the hyphen-free text after it is extracted |
| SlugUtils.SlugWithId | src/lib/utils/slugUtils.ts:15-19 | base slug (name slug, or lower-cased id for an empty name), a hyphen, the id; the id round-trips when it has no hyphen |
| SlugUtils.CreateRoadDisruptionSlug | src/lib/utils/slugUtils.ts:15-19 | name slug + "-" + id, or lower(id) + "-" + id for an empty name; `extractIdFromSlug` recovers a hyphen-free id |
| SlugUtils.CreateEventSlug | src/lib/utils/slugUtils.ts:21-25 | the same shape and round trip for events |
| SlugUtils.CreateInspectorSlug | src/lib/utils/slugUtils.ts:27-31 | the same shape and round trip for inspectors |
| SlugUtils.CreateTransportDisruptionSlug | src/lib/utils/slugUtils.ts:33-37 | the same shape and round trip for stations |
| SlugUtils.PunctuationOnlyName | src/lib/utils/slugUtils.ts:17-18 | a non-empty name made only of punctuation ("!!!") gives "-" + id |
| SlugUtils.HyphenatedIdIsTruncated | src/lib/utils/slugUtils.ts:42-45 | an id containing a hyphen does not round-trip: only its part after the last hyphen comes back |
| RoadCodes.RunEnd | src/lib/api/roadDisruptions.ts:15 | the end of the longest run of a character class starting at `i` |
| RoadCodes.MatchEnd | src/lib/api/roadDisruptions.ts:15 | a token match spans at least `[A1]` and ends at its `]` |
| RoadCodes.RoadAtWellFormed | src/lib/api/roadDisruptions.ts:19-24 | each parsed entry has type A or M, a number matching `\d+[A-Z]*`, and `fullCode == "[" + type + number + "]"`, which is the matched text |
| RoadCodes.TokenIsMatch | src/lib/api/roadDisruptions.ts:15 | every occurrence of `[` type number `]` with a well-formed number is a match that parses back to that type and number |
| RoadCodes.NoMatchInside | src/lib/api/roadDisruptions.ts:18 | no match starts inside another, so the scan's jump to the match end skips nothing |
| RoadCodes.NextMatch | src/lib/api/roadDisruptions.ts:18 | `regex.exec` from `lastIndex`: the leftmost match at or after it, or none |
| RoadCodes.NextMatchTokens | src/lib/api/roadDisruptions.ts:18-25 | the tokens from a position are the next match's entry followed by the tokens after it |
| RoadCodes.TokensWellFormed | src/lib/api/roadDisruptions.ts:19-24 | every token entry is well formed |
| RoadCodes.ParseRoadCodes | src/lib/api/roadDisruptions.ts:11-28 | the `exec` loop returns exactly the tokens, left to right, one entry per token, each well formed |
| RoadSort.CompareNumbers | src/lib/api/roadDisruptions.ts:42 | numeric `localeCompare` on road numbers answers -1, 0 or 1 |
| RoadSort.CompareRoads | src/lib/api/roadDisruptions.ts:31-46 | the comparator answers -1, 0 or 1 |
| RoadSort.CompareRoadsIsKeyOrder | src/lib/api/roadDisruptions.ts:33-45 | the comparator is the order on (M/A rank, number value, suffix): negative exactly for a smaller key, zero exactly for equal keys, antisymmetric |
| RoadSort.LessIsStrictWeakOrder | src/lib/api/roadDisruptions.ts:31-46 | "sorts before" is irreflexive and transitive, and incomparable roads have equal keys: the comparator is consistent |
| RoadSort.SortSorted | src/lib/api/roadDisruptions.ts:30-31 | the sort result is sorted by the comparator |
| RoadSort.SortPermutation | src/lib/api/roadDisruptions.ts:30-31 | the sort result is a permutation of the input |
| RoadSort.SortStable | src/lib/api/roadDisruptions.ts:30-31 | roads with equal keys keep their input order (a stable `Array.prototype.sort`) |
| RoadSort.SortedOrder | src/lib/api/roadDisruptions.ts:33-43 | in a sorted list no M road follows an A road, and within a type numbers ascend by value |
| RoadSort.NineBeforeForty | src/lib/api/roadDisruptions.ts:42 | "9" sorts before "40" although it is textually greater |
| RoadSort.InsertAt | src/lib/api/roadDisruptions.ts:31 | one pass moves element `i` left into the sorted prefix, leaving the rest of the array alone |
| RoadSort.SortRoads | src/lib/api/roadDisruptions.ts:30-47 | sorting in place leaves the array equal to the stable sort of its old contents |
| StreetNames.RemoveCodes | src/lib/api/roadDisruptions.ts:52 | deleting code tokens never lengthens the text |
| StreetNames.RemoveCodesWithoutBracket | src/lib/api/roadDisruptions.ts:52 | text without `[` is unchanged by the code deletion |
| StreetNames.RemoveCodesNextMatch | src/lib/api/roadDisruptions.ts:52 | the global replace deletes exactly the code tokens: the text before the next token is kept verbatim, the token is dropped and the scan resumes after it; with no token left the rest is kept |
| StreetNames.RemoveParens | src/lib/api/roadDisruptions.ts:53 | deleting `(...)` asides never lengthens the text |
| StreetNames.RemoveParensLeavesNoAside | src/lib/api/roadDisruptions.ts:53 | afterwards no `(` has a `)` after it |
| StreetNames.Split | src/lib/api/roadDisruptions.ts:58 | `split(/[,;]/)` yields at least one piece |
| StreetNames.SplitPieces | src/lib/api/roadDisruptions.ts:58 | no piece holds `,` or `;` |
| StreetNames.SplitAtSeparator | src/lib/api/roadDisruptions.ts:58 | splitting at the first separator gives the text before it, then the split of the rest |
| StreetNames.Clean | src/lib/api/roadDisruptions.ts:59-60 | trim-and-filter never yields more parts than it is given |
| StreetNames.CleanNames | src/lib/api/roadDisruptions.ts:59-60 | every kept part is non-empty, trimmed, not a bare `[AM]\d+[A-Z]*` code, and separator-free |
| StreetNames.ExtractStreetNames | src/lib/api/roadDisruptions.ts:49-61 | every returned name is non-empty, trimmed, free of `,`/`;`, and not a bare code |
| StreetNames.ExtractJoinedNames | src/lib/api/roadDisruptions.ts:49-61 | plain names joined by ", " read back as the same list ("High Street, Bankside") |
| StreetNames.ExtractNameAfterCode | src/lib/api/roadDisruptions.ts:49-61 | a code, a name and an aside give just the name ("[A302] Kennington Park Road (SE11)") |
| StreetNames.JoinNamesEnds | src/lib/api/roadDisruptions.ts:58 | a joined list starts with its first name and ends with its last |
| Feed.FeaturesOrEmpty | src/lib/api/events.ts:28 | `data.features \|\| []`: the features, or none when the list is missing |
| Feed.FirstHit | src/lib/api/events.ts:28-29 | the scan stops at the first feature with the id, or at the first feature without properties before any match (where the read throws), or reaches the end having passed every feature |
| Feed.FirstHitDetermined | src/lib/api/events.ts:28-29 | each of those three situations determines the scan's outcome |
| Events.EventOf | src/lib/api/events.ts:34-56 | the event record: missing geometry throws; coordinates copied from the geometry; category defaults to "event"; description is the comment, else the raw category + " event"; ticket URL and organizer undefined |
| Events.GetEvent | src/lib/api/events.ts:20-61 | non-ok gives the API error; the first feature with the id is mapped; a feature without properties before it throws; no match gives not-found |
| Inspectors.InspectorOf | src/lib/api/inspectors.ts:25-42 | missing `data` or geometry throws; id, location name and inspector id are the feed id; `time` is also the last-updated timestamp; missing coordinates fall back to the literal pair |
| Inspectors.GetInspector | src/lib/api/inspectors.ts:15-45 | non-ok gives the API error; a missing feature list throws; `find` returns the first feature with the id; none gives not-found; a found record carries the requested id |
| TransportDisruptions.FirstDisruption | src/lib/api/transportDisruptions.ts:28 | the first value of `disruptions`, present exactly when the object is non-empty |
| TransportDisruptions.Lines | src/lib/api/transportDisruptions.ts:46 | the keys of `disruptions` in order, none when it is missing |
| TransportDisruptions.Status | src/lib/api/transportDisruptions.ts:41 | the first disruption's type, else "Disruption"; never empty |
| TransportDisruptions.StartDate | src/lib/api/transportDisruptions.ts:43 | the first disruption's start date, else the current time |
| TransportDisruptions.TransportOf | src/lib/api/transportDisruptions.ts:31-48 | coordinates are `[long, lat]` from the properties; status and description fall back as the source does; last updated is the start date; no end date; the affected lines are the disruption keys; the only affected station is the station itself |
| TransportDisruptions.GetTransportDisruption | src/lib/api/transportDisruptions.ts:16-52 | non-ok gives the API error; the first station with the id is mapped; a station without properties before it throws; no match gives not-found |
| RoadDisruptions.FirstCode | src/lib/api/roadDisruptions.ts:87-92 | the first code of `road_description \|\| road_name`, else the first code of the comments, else none; the same entry `parseRoadCodes` would list first |
| RoadDisruptions.NameMatchFrom | src/lib/api/roadDisruptions.ts:112 | the leftmost position where `\[CODE]\s*([^(]+)` matches, or none |
| RoadDisruptions.CapturedName | src/lib/api/roadDisruptions.ts:112-114 | the captured group, trimmed: trimmed and free of `(` |
| RoadDisruptions.NameAfterCode | src/lib/api/roadDisruptions.ts:112-114 | a name exists exactly when the pattern matches somewhere; it is trimmed and free of `(` |
| RoadDisruptions.ProperRoadName | src/lib/api/roadDisruptions.ts:104-116 | the name after the code in the comments when there are comments, a code and a match; else `road_name \|\| road_description \|\| 'Unknown Road'` |
| RoadDisruptions.AffectedRoads | src/lib/api/roadDisruptions.ts:123-132 | the codes as `{type, number}` in order, then every street name as a `Street` entry |
| RoadDisruptions.RoadDisruptionOf | src/lib/api/roadDisruptions.ts:87-153 | throws exactly when `road_description` is not a string or the geometry is missing; otherwise type, number and road name come from the first code as above, `Street`/`Unknown` without one; severity defaults to "Moderate"; description equals the current update; coordinates fall back; category, sub-category, comments and dates take their defaults; affected roads are the sorted codes of the raw description, then its streets |
| RoadDisruptions.SortedCodesListed | src/lib/api/roadDisruptions.ts:119-132 | the built list holds every well-formed code and nothing else, motorways first, numbers ascending, then the streets in order |
| RoadDisruptions.AffectedRoadsShape | src/lib/api/roadDisruptions.ts:119-132 | for any description the affected roads list its sorted codes before its street names |
| RoadDisruptions.NameAfterLeadingCode | src/lib/api/roadDisruptions.ts:112-114 | a code, a space, a name and an aside: the pattern captures the name |
| RoadDisruptions.CodeFromComments | src/lib/api/roadDisruptions.ts:92 | with no code in the description, comments starting with a code yield that code |
| RoadDisruptions.RoadFromComments | src/lib/api/roadDisruptions.ts:92-116 | such comments give both the code and the road name after it |
| RoadDisruptions.CodeAndNameFromComments | src/lib/api/roadDisruptions.ts:87-153 | the resolved record takes its road type, number and name from such comments |
| RoadDisruptions.TransformRoad | src/lib/api/roadDisruptions.ts:87-153 | the step-by-step matching branch (reassigned locals, parse, in-place sort, extraction) computes the record function |
| RoadDisruptions.GetRoadDisruption | src/lib/api/roadDisruptions.ts:75-157 | non-ok gives the API error; the first feature with the `disruption_id` is transformed; a feature without properties before it throws; no match gives not-found |
| Navigation.Taken | src/lib/api/navigation.ts:29-30 | the number of features mapped: all of them up to `limit`, none for a non-positive limit |
| Navigation.BuiltFromBound | src/lib/api/navigation.ts:29-51 | a builder lists at most `limit` items and no more than there are features |
| Navigation.DefaultLimitBound | src/lib/api/navigation.ts:23-30 | with the default `limit = 5` a builder lists at most five items, and a non-empty list has as many items as the first five features |
| Navigation.Walked | src/lib/api/navigation.ts:29 | `features?.forEach` walks a missing list as empty |
| Navigation.SeverityColors | src/lib/api/navigation.ts:40-42 | Serious, Severe and Closure get three different colours; every other severity gets #D97706 |
| Navigation.RoadItem | src/lib/api/navigation.ts:32-44 | missing properties throw; otherwise the id, the title `severity on road_name \|\| road_description`, the icon, the colour by severity, the last update, and the description `current_update`, else `category`, else "Road disruption reported" |
| Navigation.RoadItemAgreesWithPage | src/lib/api/navigation.ts:38 | a road item's description and id are the detail page's |
| Navigation.GetAvailableRoadDisruptions | src/lib/api/navigation.ts:23-52 | the items of the first `limit` features in order, or [] when one of them throws |
| Navigation.LocationOfStreetAndCity | src/lib/api/navigation.ts:70 | "Baker Street, London" is listed at "Baker Street" |
| Navigation.Location | src/lib/api/navigation.ts:70 | the address up to its first comma: a comma-free prefix of the address that ends at its end or at a comma; "Unknown location" for a missing or empty address or one that starts with a comma; never empty |
| Navigation.InspectorItemOf | src/lib/api/navigation.ts:64-76 | missing properties or `data` throw; otherwise the title `type check at location`, the message, the colour by type and the time |
| Navigation.InspectorItemAgreesWithPage | src/lib/api/navigation.ts:64-76 | an inspector is listed exactly when its page opens, with the page's last-update time and id |
| Navigation.GetAvailableInspectors | src/lib/api/navigation.ts:55-84 | the items of the first `limit` features in order, or [] when one of them throws |
| Navigation.EventItemOf | src/lib/api/navigation.ts:96-113 | missing properties throw; otherwise the description `category at venue` with defaults; the event's icon, else the category's; the colour by category; the start time |
| Navigation.CategoryStyles | src/lib/api/navigation.ts:103-112 | the five named categories get distinct icons and colours; any other gets the building and grey |
| Navigation.GetAvailableEvents | src/lib/api/navigation.ts:87-122 | the items of the first `limit` features in order, or [] when one of them throws |
| Navigation.TransportItemOf | src/lib/api/navigation.ts:134-154 | throws exactly when properties are missing or the service is not a string |
| Navigation.TransportItemFields | src/lib/api/navigation.ts:137-153 | the title is `status on service`, where the status is the first disruption's type, else "Disruption"; the icon is by lower-cased service; the colour is by status; the date is the start date |
| Navigation.ServiceIconIgnoresCase | src/lib/api/navigation.ts:145-149 | services that differ only in case get the same icon |
| Navigation.TransportItemAgreesWithPage | src/lib/api/navigation.ts:137-153 | a transport item shows the station page's status, last-updated date and id |
| Navigation.GetAvailableTransportDisruptions | src/lib/api/navigation.ts:125-162 | the items of the first `limit` features in order, or [] when one of them throws |
| TimeUtils.ElapsedMinutes | src/lib/utils/timeUtils.ts:15 | the floor of the elapsed time in minutes (negative for the future); NaN for an invalid date |
| TimeUtils.AgeOf | src/lib/utils/timeUtils.ts:17-27 | buckets: under 1 minute, under 60, under 1440, days; hours in 1..23; days at least 1; NaN falls to the day branch |
| TimeUtils.FormatRelativeTime | src/lib/utils/timeUtils.ts:13-28 | "Just now" exactly for dates less than a minute ago, future ones included; an invalid date reads "NaN day ago" |
| TimeUtils.PhraseInjectiveAt | src/lib/utils/timeUtils.ts:17-27 | two buckets read the same exactly when they are the same bucket |
| TimeUtils.SamePhraseSameAge | src/lib/utils/timeUtils.ts:13-28 | two dates read the same exactly when they fall in the same bucket |
| TimeUtils.RelativeTimeInMinutes | src/lib/utils/timeUtils.ts:19-20 | n minutes ago reads "n minutes ago", plural even for 1 |
| TimeUtils.RelativeTimeInHours | src/lib/utils/timeUtils.ts:21-23 | h hours ago reads "1 hour ago" or "h hours ago" |
| TimeUtils.RelativeTimeInDays | src/lib/utils/timeUtils.ts:24-27 | n days ago reads "1 day ago" or "n days ago" |
| TimeUtils.IsLive | src/lib/utils/timeUtils.ts:30-34 | live exactly when updated less than six minutes ago (at most 5 whole minutes) or in the future; never for an invalid date |
| TimeUtils.JustNowIsLive | src/lib/utils/timeUtils.ts:17-18 | whatever reads "Just now" is live |
| InspectorCard.ElapsedOf | src/components/content/InspectorCard.tsx:43-55 | under a minute, minutes under an hour, then hours and minutes with `hours*60 + minutes == d` and minutes below 60; NaN reaches the hours branch |
| InspectorCard.FormatTimeAgo | src/components/content/InspectorCard.tsx:38-56 | "Just now" exactly for times less than a minute ago; an invalid time reads "NaNhr NaNmin ago" |
| InspectorCard.PhraseInjectiveAt | src/components/content/InspectorCard.tsx:43-55 | two buckets read the same exactly when they are equal |
| InspectorCard.SameTextSameElapsed | src/components/content/InspectorCard.tsx:38-56 | two times read the same exactly when their buckets agree |
| InspectorCard.TimeAgoInHours | src/components/content/InspectorCard.tsx:48-54 | h hours and m minutes ago read "h hr ago" for m = 0, else "h hr m min ago" |
| InspectorCard.TwentyFiveHours | src/components/content/InspectorCard.tsx:47-55 | there is no day bucket: 1500 minutes read "25hr ago" |
| InspectorCard.TypeText | src/components/content/InspectorCard.tsx:10-21 | police check and clear get their labels; every other type, missing included, reads "TfL Stop Check" |
| InspectorCard.TypeIcon | src/components/content/InspectorCard.tsx:24-35 | police check and clear get their icons; every other type gets the police icon |
| InspectorCard.IconFollowsText | src/components/content/InspectorCard.tsx:10-35 | two types share a label exactly when they share an icon |
| NavigationCard.FormatTimeAgo | src/components/navigation/NavigationCard.tsx:12-25 | "Just now" exactly for dates less than a minute ago; an invalid date reads "NaNd ago" |
| NavigationCard.ShortPhraseInjectiveAt | src/components/navigation/NavigationCard.tsx:18-21 | two buckets read the same exactly when they are equal |
| NavigationCard.SameBucketsAsRelativeTime | src/components/navigation/NavigationCard.tsx:16-21 | two dates share a short text exactly when they share a `formatRelativeTime` phrase |
| NavigationCard.TimeAgoInHours | src/components/navigation/NavigationCard.tsx:20 | between one hour and one day ago: "h h ago" with h in 1..23 |
| NavigationCard.TimeAgoInMinutes | src/components/navigation/NavigationCard.tsx:19 | n whole minutes ago, 1 <= n < 60: "n m ago" |
| NavigationCard.TimeAgoInDays | src/components/navigation/NavigationCard.tsx:21 | n whole days ago, n >= 1: "n d ago" |
| NavigationCard.TypeLabel | src/components/navigation/NavigationCard.tsx:27-35 | total; "Unknown" exactly for the types no builder writes |
| NavigationCard.ItemsAreLabelled | src/components/navigation/NavigationCard.tsx:27-35 | every item type gets its own label, never "Unknown" |
| TransportDisruptionCard.StatusColor | src/components/content/TransportDisruptionCard.tsx:10-37 | grey exactly for unknown lower-cased statuses; dark text exactly for severe and minor delays; one red for no service, suspended and closed |
| TransportDisruptionCard.StatusColorIgnoresCase | src/components/content/TransportDisruptionCard.tsx:11 | a status and its lower-cased form get the same badge |
| TransportDisruptionCard.ListAndCardAgree | src/components/content/TransportDisruptionCard.tsx:26-31 | Disruption, Closure and Suspension get the same background as in the navigation list |
| TransportDisruptionCard.UntypedDisruptionBadge | src/components/content/TransportDisruptionCard.tsx:26-27 | a station whose first disruption has no type gets the orange-red badge |
| TransportDisruptionCard.Truncate | src/components/content/TransportDisruptionCard.tsx:42-49 | unchanged up to the limit; otherwise the first `max` characters and "...", at most `max + 3` long |
| TransportDisruptionCard.TruncateIdempotent | src/components/content/TransportDisruptionCard.tsx:42-49 | truncating twice is truncating once |
| TransportDisruptionCard.TruncateStationName | src/components/content/TransportDisruptionCard.tsx:42-44 | the name when at most 25 long, else its first 25 characters and "..."; at most 28 long |
| TransportDisruptionCard.TruncateDisruptionName | src/components/content/TransportDisruptionCard.tsx:47-49 | the same with 17 and 20 |
| TransportDisruptionCard.DisruptionName | src/components/content/TransportDisruptionCard.tsx:52-53 | the first disruption's description, else the record's description, else "Disruption"; never empty |
| TransportDisruptionCard.DisruptionNameOfResolved | src/components/content/TransportDisruptionCard.tsx:52-53 | on a resolved station record the card shows the resolver's description |
| MapMaximizer.SeverityIcon | src/components/ui/MapMaximizer.tsx:97-110 | total; the moderate icon exactly for the types other than the three serious severities and the three inspector types; inspector types share the inspector card's icons |
| MapMaximizer.RemoveBrackets | src/components/ui/MapMaximizer.tsx:125 | no bracket is left, and text without brackets is unchanged |
| MapMaximizer.RemoveBracketsAppend | src/components/ui/MapMaximizer.tsx:125 | bracket removal works piece by piece |
| MapMaximizer.Padding | src/components/ui/MapMaximizer.tsx:142-150 | only spaces, 6 to 12 of them |
| MapMaximizer.PaddingFitsBadge | src/components/ui/MapMaximizer.tsx:142-150 | a motorway gets exactly one space more; a wider number never gets less; a missing number gets the most |
| MapMaximizer.BadgeWidth | src/components/ui/MapMaximizer.tsx:140 | `roadNumber?.length \|\| 0` |
| MapMaximizer.CleanedText | src/components/ui/MapMaximizer.tsx:125-136 | with the brackets removed: a leading code is cut and the text is the trimmed rest, or the original name when that rest is blank; without a leading code it is the unbracketed text, or the name when that is empty; empty only for an empty name |
| MapMaximizer.CleanRoadName | src/components/ui/MapMaximizer.tsx:120-153 | the step-by-step `cleanRoadName` equals the name-shown function |
| MapMaximizer.ElseBranchUnreachable | src/components/ui/MapMaximizer.tsx:128-131 | a name starting with the code and a space already starts with the code, so the `else if` never runs |
| MapMaximizer.StreetNameUnchanged | src/components/ui/MapMaximizer.tsx:121-123 | a street name is shown as given, without padding |
| MapMaximizer.OnlyCodeKeepsName | src/components/ui/MapMaximizer.tsx:134-136 | a name that is only its code keeps its brackets after the padding |
| MapMaximizer.StripsBracketedCode | src/components/ui/MapMaximizer.tsx:125-152 | "[A3] Kennington Road" shows "Kennington Road" after the badge padding |

## Left out

- Fetching is not modelled: `fetch`, the `response.json()` parse, and the request headers and URLs are I/O. Each resolver and builder takes the parsed response or feature list as a parameter. A non-ok response is the `ApiError` outcome.
- Console logging and the re-throw in each `catch` are not modelled, since they only log. A thrown error is the `Failure` result itself.
- `getNavigationData` is not modelled: it only runs the four builders concurrently with `Promise.all`.
- The clock is a parameter. `new Date()` is `now`, and `new Date().toISOString()` is an opaque `nowIso` string. Every clock read within one call is taken as the same instant: the station record's `fromDate` fallback and its `lastUpdated` (transportDisruptions.ts:43,45), and the road record's three date fallbacks (roadDisruptions.ts:144-147), share one `nowIso`, though the source reads the clock once per use and two reads can straddle a millisecond tick. Parsing a date string is left to the caller, who passes milliseconds or `None` (invalid).
- The road record's `timeAgo` is not modelled, nor the event record's: they call `toLocaleString`, whose output depends on the locale. The defaulted road-record dates (`fromDate`, `toDate`, `lastUpdated`) are copied as `||` over `nowIso`.
- `toLowerCase` maps only ASCII letters: Unicode case mapping is not modelled. Whitespace (`\s`, `trim`) is the full ECMAScript WhiteSpace and LineTerminator set.
- `RoadSort.CompareNumbers`: `localeCompare(..., {numeric: true})` is modelled only on the numbers the road-code pattern produces (`\d+[A-Z]*`). The digit prefixes compare by value, then the suffixes by code point. Leading-zero ties and locale collation levels are not modelled.
- The `disruptions` object of a station is a sequence of (line, disruption) pairs in key order. The key-order rules of JavaScript objects for integer-like keys are not modelled.
- Lengths are counted in characters, not UTF-16 code units: `truncate*Name` and `roadNumber.length` treat an astral character as one.
- React rendering, component state and effects are not modelled (`mapCenter`, `currentZoom`, `handleLocate`, motion and map components). Only the named helpers are.
- `NavigationCard.FormatTimeAgo`: the `catch` branch that returns the input string is not modelled. Nothing in the `try` block throws for a string argument, so an invalid date reads "NaNd ago".
- `MapMaximizer.CleanRoadName`: the `else if (startsWith(roadCode + ' '))` branch is not modelled as code. The lemma `ElseBranchUnreachable` shows it never runs.
- Pass-through fields that the records copy without reading them are not modelled: the event's `attendance`, `event_lat`, `event_lon`, `distance_km` and `is_ending_soon`, the inspector's `distance_km`, and the station's `distance_km` and `airport_tag`. They are numbers or booleans copied unchanged.
- A `null` element of `features` is not modelled: reading `feature.properties` on it throws a TypeError, both in the resolvers' scan and in the builders. A feature here always exists; only its `properties` or `geometry` may be missing.
- A `null` value inside a station's `disruptions` object is not modelled. `null?.type` would give the status "Disruption"; here every value is a disruption record.
- The fallback coordinates `[51.5074, -0.1276]` are latitude-first while the feed's coordinates are longitude-first. The literal is kept as written.
