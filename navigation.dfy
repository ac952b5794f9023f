// The navigation lists (src/lib/api/navigation.ts): four builders, one per
// feed, each walking the feature list with `forEach`, skipping every
// feature once `limit` items are listed, mapping the others to navigation
// items, and answering [] when any mapping throws.

module Navigation {
  import opened Text
  import opened JsValues
  import opened Feed
  import opened Events
  import opened Inspectors
  import opened TransportDisruptions
  import opened RoadDisruptions
  import StreetNames

  /** The `limit` every builder takes when none is given. */
  const DEFAULT_LIMIT: int := 5

  /** The `type` of a navigation item. */
  datatype ItemKind = RoadDisruptionItem | InspectorItem | EventItem | TransportDisruptionItem

  /** One navigation item; `count` is never set by the builders. */
  datatype NavigationItem = NavigationItem(
    id: JsString,
    kind: ItemKind,
    title: JsString,
    description: JsString,
    icon: string,
    color: string,
    lastUpdated: JsString)

  const ROADWORKS_ICON: string := "\U{1F6A7}"
  const POLICE_ICON: string := "\U{1F46E}"

  /** How many features a builder maps: every feature is visited, but once
      `limit` items are listed (`length >= limit`) the rest are skipped. */
  function Taken(n: nat, limit: int): (t: nat)
    ensures t <= n
    ensures limit <= 0 ==> t == 0
    ensures limit > 0 ==> t <= limit && (t == n || t == limit)
  {
    if limit <= 0 then 0 else if n <= limit then n else limit
  }

  /** What a builder returns, given the outcome of mapping each feature:
      [] when a mapping among the first `Taken` features throws (the catch
      block), otherwise exactly the items of those features, in order. */
  predicate BuiltFrom(items: seq<NavigationItem>, outcomes: seq<Result<NavigationItem, FetchError>>, limit: int) {
    var n := Taken(|outcomes|, limit);
    if exists k :: 0 <= k < n && outcomes[k].Failure? then items == []
    else |items| == n && forall k :: 0 <= k < n ==> outcomes[k].Success? && items[k] == outcomes[k].value
  }

  /** A builder never lists more than `limit` items, nor more items than
      there are features. */
  lemma BuiltFromBound(items: seq<NavigationItem>, outcomes: seq<Result<NavigationItem, FetchError>>, limit: int)
    requires BuiltFrom(items, outcomes, limit)
    ensures |items| <= |outcomes|
    ensures limit <= 0 ==> items == []
    ensures limit > 0 ==> |items| <= limit
  {
  }

  /** Called without a limit, a builder lists at most five items, and
      exactly the first five when the mapping succeeds for them. */
  lemma DefaultLimitBound(items: seq<NavigationItem>, outcomes: seq<Result<NavigationItem, FetchError>>)
    requires BuiltFrom(items, outcomes, DEFAULT_LIMIT)
    ensures |items| <= 5
    ensures items != [] ==> |items| == if |outcomes| < 5 then |outcomes| else 5
  {
    BuiltFromBound(items, outcomes, DEFAULT_LIMIT);
  }

  /** `data.features?.forEach`: a missing feature list is walked as empty. */
  function Walked<F>(features: Option<seq<F>>): (fs: seq<F>)
    ensures features.Some? ==> fs == features.value
    ensures features.None? ==> fs == []
  {
    if features.Some? then features.value else []
  }

  // Road disruptions

  /** The colour of a road item: by severity, amber for any other. */
  function SeverityColor(severity: JsString): string {
    if severity == Str("Serious") then "#DC2626"
    else if severity == Str("Severe") then "#EA580C"
    else if severity == Str("Closure") then "#991B1B"
    else "#D97706"
  }

  /** The three named severities get three different colours, and every
      other severity (missing ones included) gets the amber one. */
  lemma SeverityColors(severity: JsString)
    ensures SeverityColor(severity) == "#D97706" <==>
      severity !in {Str("Serious"), Str("Severe"), Str("Closure")}
    ensures SeverityColor(Str("Serious")) != SeverityColor(Str("Severe"))
    ensures SeverityColor(Str("Serious")) != SeverityColor(Str("Closure"))
    ensures SeverityColor(Str("Severe")) != SeverityColor(Str("Closure"))
  {
  }

  /** The item for one road-disruption feature; reading
      `props.disruption_id` throws when `properties` is missing. */
  function RoadItem(f: Feature<RoadProps>): (r: Result<NavigationItem, FetchError>)
    ensures r.Failure? <==> f.properties.None?
    ensures r.Failure? ==> r.error == TypeError
    ensures r.Success? ==>
      var p := f.properties.value;
      && r.value.id == p.disruptionId
      && r.value.kind == RoadDisruptionItem
      && r.value.title == Str(Render(p.severity) + " on " + Render(Or(p.roadName, p.roadDescription)))
      && r.value.icon == ROADWORKS_ICON
      && r.value.color == SeverityColor(p.severity)
      && r.value.lastUpdated == p.lastUpdated
    ensures r.Success? ==>
      var p := f.properties.value;
      && (Truthy(p.currentUpdate) ==> r.value.description == p.currentUpdate)
      && (!Truthy(p.currentUpdate) && Truthy(p.category) ==> r.value.description == p.category)
      && (!Truthy(p.currentUpdate) && !Truthy(p.category) ==>
            r.value.description == Str("Road disruption reported"))
  {
    if f.properties.None? then Failure(TypeError)
    else
      var p := f.properties.value;
      Success(NavigationItem(
        id := p.disruptionId,
        kind := RoadDisruptionItem,
        title := Str(Render(p.severity) + " on " + Render(Or(p.roadName, p.roadDescription))),
        description := Str(OrElse(Or(p.currentUpdate, p.category), "Road disruption reported")),
        icon := ROADWORKS_ICON,
        color := SeverityColor(p.severity),
        lastUpdated := p.lastUpdated))
  }

  /** A road item says what the disruption page says: its description is
      the page's description, and its id is the page's id. */
  lemma RoadItemAgreesWithPage(p: RoadProps, geometry: Option<Geometry>, nowIso: string)
    requires RoadDisruptionOf(p, geometry, nowIso).Success?
    ensures var page := RoadDisruptionOf(p, geometry, nowIso).value;
      var item := RoadItem(Feature(Some(p), geometry)).value;
      item.description == Str(page.description) && item.id == page.id
  {
  }

  function RoadOutcomes(fs: seq<Feature<RoadProps>>): (outcomes: seq<Result<NavigationItem, FetchError>>)
    ensures |outcomes| == |fs| && forall k :: 0 <= k < |fs| ==> outcomes[k] == RoadItem(fs[k])
  {
    seq(|fs|, k requires 0 <= k < |fs| => RoadItem(fs[k]))
  }

  /** `getAvailableRoadDisruptions(limit)` over the fetched feature list. */
  method GetAvailableRoadDisruptions(features: Option<seq<Feature<RoadProps>>>, limit: int)
    returns (disruptions: seq<NavigationItem>)
    ensures BuiltFrom(disruptions, RoadOutcomes(Walked(features)), limit)
  {
    var fs := Walked(features);
    ghost var outcomes := RoadOutcomes(fs);
    disruptions := [];
    var i := 0;
    while i < |fs|
      invariant i <= |fs|
      invariant |disruptions| == Taken(i, limit)
      invariant forall k :: 0 <= k < |disruptions| ==>
        outcomes[k].Success? && disruptions[k] == outcomes[k].value
    {
      if |disruptions| < limit {
        var item := RoadItem(fs[i]);
        if item.Failure? {
          assert outcomes[i].Failure? && i < Taken(|fs|, limit);
          return [];
        }
        disruptions := disruptions + [item.value];
      }
      i := i + 1;
    }
  }

  // Inspectors

  /** `address?.split(',')[0] || 'Unknown location'`: the address up to its
      first comma, unless that is empty or there is no address. */
  function Location(address: JsString): (location: string)
    ensures location != ""
    ensures StreetNames.Absent(location, ',', 0) || location == "Unknown location"
    ensures address.Str? && address.s != "" && StreetNames.Absent(address.s, ',', 0) ==>
      location == address.s
    ensures address.Str? && location != "Unknown location" ==>
      |location| <= |address.s| && address.s[..|location|] == location
    ensures address.Str? && location != "Unknown location" ==>
      |location| == |address.s| || address.s[|location|] == ','
    ensures !address.Str? || address.s == "" || address.s[0] == ',' ==> location == "Unknown location"
    ensures address.Str? && address.s != "" && address.s[0] != ',' ==>
      && |location| <= |address.s| && address.s[..|location|] == location
      && (|location| == |address.s| || address.s[|location|] == ',')
  {
    if !address.Str? then "Unknown location"
    else
      var a := address.s;
      var segment := match StreetNames.FirstFrom(a, ',', 0) case Some(e) => a[..e] case None => a;
      assert StreetNames.Absent(segment, ',', 0) by {
        forall k | 0 <= k < |segment|
          ensures segment[k] != ','
        {
          assert segment[k] == a[k];
        }
      }
      if segment != "" then segment else "Unknown location"
  }

  /** "Baker Street, London" is listed at "Baker Street". */
  lemma LocationOfStreetAndCity()
    ensures Location(Str("Baker Street, London")) == "Baker Street"
  {
    var a := "Baker Street, London";
    assert forall k :: 0 <= k < 12 ==> a[k] != ',';
    StreetNames.FirstFromAt(a, ',', 0, 12);
  }

  /** The colour of an inspector item: by inspector type. */
  function InspectorColor(kind: JsString): string {
    if kind == Str("tfl") then "#0066CC"
    else if kind == Str("police-check") then "#DC2626"
    else "#16A34A"
  }

  /** The item for one inspector feature; reading `inspectorData.type`
      throws when `properties` or `properties.data` is missing. */
  function InspectorItemOf(f: Feature<InspectorProps>): (r: Result<NavigationItem, FetchError>)
    ensures r.Failure? <==> f.properties.None? || f.properties.value.data.None?
    ensures r.Failure? ==> r.error == TypeError
    ensures r.Success? ==>
      var p := f.properties.value;
      var info := p.data.value;
      && r.value.id == p.id
      && r.value.kind == InspectorItem
      && r.value.title == Str(Render(info.kind) + " check at " + Location(info.formattedAddress))
      && r.value.description == info.originalMessage
      && r.value.icon == POLICE_ICON
      && r.value.color == InspectorColor(info.kind)
      && r.value.lastUpdated == info.time
  {
    if f.properties.None? || f.properties.value.data.None? then Failure(TypeError)
    else
      var p := f.properties.value;
      var info := p.data.value;
      Success(NavigationItem(
        id := p.id,
        kind := InspectorItem,
        title := Str(Render(info.kind) + " check at " + Location(info.formattedAddress)),
        description := info.originalMessage,
        icon := POLICE_ICON,
        color := InspectorColor(info.kind),
        lastUpdated := info.time))
  }

  /** An inspector item is listed exactly for the features whose page
      opens, and it is updated when the page says it was. */
  lemma InspectorItemAgreesWithPage(p: InspectorProps, geometry: Geometry)
    ensures InspectorItemOf(Feature(Some(p), Some(geometry))).Success? <==>
      InspectorOf(p, Some(geometry)).Success?
    ensures InspectorOf(p, Some(geometry)).Success? ==>
      var page := InspectorOf(p, Some(geometry)).value;
      var item := InspectorItemOf(Feature(Some(p), Some(geometry))).value;
      item.lastUpdated == page.lastUpdatedTimestamp && item.id == page.inspectorId
  {
  }

  function InspectorOutcomes(fs: seq<Feature<InspectorProps>>): (outcomes: seq<Result<NavigationItem, FetchError>>)
    ensures |outcomes| == |fs| && forall k :: 0 <= k < |fs| ==> outcomes[k] == InspectorItemOf(fs[k])
  {
    seq(|fs|, k requires 0 <= k < |fs| => InspectorItemOf(fs[k]))
  }

  /** `getAvailableInspectors(limit)` over the fetched feature list. */
  method GetAvailableInspectors(features: Option<seq<Feature<InspectorProps>>>, limit: int)
    returns (inspectors: seq<NavigationItem>)
    ensures BuiltFrom(inspectors, InspectorOutcomes(Walked(features)), limit)
  {
    var fs := Walked(features);
    ghost var outcomes := InspectorOutcomes(fs);
    inspectors := [];
    var i := 0;
    while i < |fs|
      invariant i <= |fs|
      invariant |inspectors| == Taken(i, limit)
      invariant forall k :: 0 <= k < |inspectors| ==>
        outcomes[k].Success? && inspectors[k] == outcomes[k].value
    {
      if |inspectors| < limit {
        var item := InspectorItemOf(fs[i]);
        if item.Failure? {
          assert outcomes[i].Failure? && i < Taken(|fs|, limit);
          return [];
        }
        inspectors := inspectors + [item.value];
      }
      i := i + 1;
    }
  }

  // Events

  /** The icon of an event without one of its own: by category. */
  function CategoryIcon(category: JsString): string {
    if category == Str("sports") then "\U{26BD}"
    else if category == Str("concerts") then "\U{1F3B5}"
    else if category == Str("festivals") then "\U{1F3AA}"
    else if category == Str("performing-arts") then "\U{1F3AD}"
    else if category == Str("conferences") then "\U{1F4BC}"
    else "\U{1F3E2}"
  }

  /** The colour of an event item: by category. */
  function CategoryColor(category: JsString): string {
    if category == Str("sports") then "#22C55E"
    else if category == Str("concerts") then "#9333EA"
    else if category == Str("festivals") then "#EA580C"
    else if category == Str("performing-arts") then "#DB2777"
    else if category == Str("conferences") then "#2563EB"
    else "#4B5563"
  }

  /** The item for one event feature; reading `eventData.id` throws when
      `properties` is missing.  The event's own icon wins over the
      category's. */
  function EventItemOf(f: Feature<EventProps>): (r: Result<NavigationItem, FetchError>)
    ensures r.Failure? <==> f.properties.None?
    ensures r.Failure? ==> r.error == TypeError
    ensures r.Success? ==>
      var p := f.properties.value;
      && r.value.id == p.id
      && r.value.kind == EventItem
      && r.value.title == p.title
      && r.value.description ==
           Str(OrElse(p.category, "Event") + " at " + OrElse(p.venueName, "Unknown venue"))
      && (Truthy(p.icon) ==> r.value.icon == p.icon.s)
      && (!Truthy(p.icon) ==> r.value.icon == CategoryIcon(p.category))
      && r.value.color == CategoryColor(p.category)
      && r.value.lastUpdated == p.startLocal
  {
    if f.properties.None? then Failure(TypeError)
    else
      var p := f.properties.value;
      Success(NavigationItem(
        id := p.id,
        kind := EventItem,
        title := p.title,
        description := Str(OrElse(p.category, "Event") + " at " + OrElse(p.venueName, "Unknown venue")),
        icon := OrElse(p.icon, CategoryIcon(p.category)),
        color := CategoryColor(p.category),
        lastUpdated := p.startLocal))
  }

  /** The five named categories get five different icons and five
      different colours; any other category gets the building and grey. */
  lemma CategoryStyles(category: JsString)
    ensures var named := [Str("sports"), Str("concerts"), Str("festivals"), Str("performing-arts"), Str("conferences")];
      forall i, j :: 0 <= i < j < |named| ==>
        CategoryIcon(named[i]) != CategoryIcon(named[j]) && CategoryColor(named[i]) != CategoryColor(named[j])
    ensures category !in {Str("sports"), Str("concerts"), Str("festivals"), Str("performing-arts"), Str("conferences")} ==>
      CategoryIcon(category) == "\U{1F3E2}" && CategoryColor(category) == "#4B5563"
  {
  }

  function EventOutcomes(fs: seq<Feature<EventProps>>): (outcomes: seq<Result<NavigationItem, FetchError>>)
    ensures |outcomes| == |fs| && forall k :: 0 <= k < |fs| ==> outcomes[k] == EventItemOf(fs[k])
  {
    seq(|fs|, k requires 0 <= k < |fs| => EventItemOf(fs[k]))
  }

  /** `getAvailableEvents(limit)` over the fetched feature list. */
  method GetAvailableEvents(features: Option<seq<Feature<EventProps>>>, limit: int)
    returns (events: seq<NavigationItem>)
    ensures BuiltFrom(events, EventOutcomes(Walked(features)), limit)
  {
    var fs := Walked(features);
    ghost var outcomes := EventOutcomes(fs);
    events := [];
    var i := 0;
    while i < |fs|
      invariant i <= |fs|
      invariant |events| == Taken(i, limit)
      invariant forall k :: 0 <= k < |events| ==>
        outcomes[k].Success? && events[k] == outcomes[k].value
    {
      if |events| < limit {
        var item := EventItemOf(fs[i]);
        if item.Failure? {
          assert outcomes[i].Failure? && i < Taken(|fs|, limit);
          return [];
        }
        events := events + [item.value];
      }
      i := i + 1;
    }
  }

  // Transport disruptions

  /** The icon of a transport item, by the lower-cased service name. */
  function ServiceIcon(service: string): string {
    if service == "tube" then "\U{1F687}"
    else if service == "bus" then "\U{1F68C}"
    else if service == "train" then "\U{1F682}"
    else if service == "dlr" then "\U{1F688}"
    else if service == "tram" then "\U{1F68B}"
    else "\U{1F686}"
  }

  /** The colour of a transport item: by status. */
  function StatusColor(status: string): string {
    if status == "Disruption" then "#EA580C"
    else if status == "Closure" then "#DC2626"
    else if status == "Suspension" then "#991B1B"
    else "#D97706"
  }

  /** The item for one station feature; reading `props.disruptions` throws
      when `properties` is missing, and `props.service.toLowerCase()` when
      the service is not a string.  `nowIso` stands for
      `new Date().toISOString()`. */
  function TransportItemOf(f: Feature<TransportProps>, nowIso: string): (r: Result<NavigationItem, FetchError>)
    ensures r.Failure? <==> f.properties.None? || !f.properties.value.service.Str?
    ensures r.Failure? ==> r.error == TypeError
  {
    if f.properties.None? || !f.properties.value.service.Str? then Failure(TypeError)
    else
      var p := f.properties.value;
      var status := Status(p);
      Success(NavigationItem(
        id := p.id,
        kind := TransportDisruptionItem,
        title := Str(status + " on " + Render(p.service)),
        description := Str(Render(p.service) + " at " + Render(p.commonName)),
        icon := ServiceIcon(Lower(p.service.s)),
        color := StatusColor(status),
        lastUpdated := Str(StartDate(p, nowIso))))
  }

  /** The fields of a transport item: the station's id, the status on
      the service, the service at the station, the icon of the lower-cased
      service, the colour of the status, and the start date. */
  lemma TransportItemFields(p: TransportProps, g: Option<Geometry>, nowIso: string)
    requires p.service.Str?
    ensures var r := TransportItemOf(Feature(Some(p), g), nowIso);
      && r.Success?
      && r.value.id == p.id
      && r.value.kind == TransportDisruptionItem
      && r.value.title == Str(Status(p) + " on " + p.service.s)
      && r.value.description == Str(p.service.s + " at " + Render(p.commonName))
      && r.value.icon == ServiceIcon(Lower(p.service.s))
      && r.value.color == StatusColor(Status(p))
      && r.value.lastUpdated == Str(StartDate(p, nowIso))
  {
  }

  /** The service name is compared without regard to case: "Tube" and
      "TUBE" get the tube icon. */
  lemma ServiceIconIgnoresCase(p: TransportProps, q: TransportProps, g: Option<Geometry>, nowIso: string)
    requires p.service.Str? && q.service.Str? && Lower(p.service.s) == Lower(q.service.s)
    ensures TransportItemOf(Feature(Some(p), g), nowIso).value.icon ==
            TransportItemOf(Feature(Some(q), g), nowIso).value.icon
  {
  }

  /** A transport item shows the status, start date and id of the station
      page: the list and the page read the first disruption alike. */
  lemma TransportItemAgreesWithPage(p: TransportProps, g: Option<Geometry>, nowIso: string)
    requires p.service.Str?
    ensures var page := TransportOf(p, nowIso);
      var item := TransportItemOf(Feature(Some(p), g), nowIso).value;
      && item.title == Str(page.status + " on " + p.service.s)
      && item.lastUpdated == Str(page.lastUpdated)
      && item.id == page.id
  {
  }

  function TransportOutcomes(fs: seq<Feature<TransportProps>>, nowIso: string)
    : (outcomes: seq<Result<NavigationItem, FetchError>>)
    ensures |outcomes| == |fs| && forall k :: 0 <= k < |fs| ==> outcomes[k] == TransportItemOf(fs[k], nowIso)
  {
    seq(|fs|, k requires 0 <= k < |fs| => TransportItemOf(fs[k], nowIso))
  }

  /** `getAvailableTransportDisruptions(limit)` over the fetched feature
      list. */
  method GetAvailableTransportDisruptions(features: Option<seq<Feature<TransportProps>>>, limit: int, nowIso: string)
    returns (disruptions: seq<NavigationItem>)
    ensures BuiltFrom(disruptions, TransportOutcomes(Walked(features), nowIso), limit)
  {
    var fs := Walked(features);
    ghost var outcomes := TransportOutcomes(fs, nowIso);
    disruptions := [];
    var i := 0;
    while i < |fs|
      invariant i <= |fs|
      invariant |disruptions| == Taken(i, limit)
      invariant forall k :: 0 <= k < |disruptions| ==>
        outcomes[k].Success? && disruptions[k] == outcomes[k].value
    {
      if |disruptions| < limit {
        var item := TransportItemOf(fs[i], nowIso);
        if item.Failure? {
          assert outcomes[i].Failure? && i < Taken(|fs|, limit);
          return [];
        }
        disruptions := disruptions + [item.value];
      }
      i := i + 1;
    }
  }
}
