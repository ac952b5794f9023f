// `getTransportDisruption` (src/lib/api/transportDisruptions.ts) once the
// feed has been fetched: the scan for the station with the requested id and
// the mapping of its properties, whose `disruptions` object names the
// affected lines.

module TransportDisruptions {
  import opened JsValues
  import opened Feed

  /** One value of a station's `disruptions` object. */
  datatype DisruptionInfo = DisruptionInfo(
    line: JsString,
    fromDate: JsString,
    description: JsString,
    kind: JsString)

  /** One property of the `disruptions` object: the line, then its
      disruption, in the object's key order. */
  datatype LineDisruption = LineDisruption(line: string, info: DisruptionInfo)

  /** `properties` of a station feature; `disruptions` may be missing or
      null, and `lat`/`long` may be missing. */
  datatype TransportProps = TransportProps(
    id: JsString,
    service: JsString,
    commonName: JsString,
    lat: Option<real>,
    long: Option<real>,
    disruptions: Option<seq<LineDisruption>>)

  /** A two-element array whose entries may be undefined. */
  datatype NumberPair = NumberPair(first: Option<real>, second: Option<real>)

  /** The station record `getTransportDisruption` resolves to. */
  datatype TransportDisruptionData = TransportDisruptionData(
    id: JsString,
    service: JsString,
    commonName: JsString,
    lat: Option<real>,
    long: Option<real>,
    coordinates: NumberPair,
    disruptions: Option<seq<LineDisruption>>,
    status: string,
    description: string,
    fromDate: string,
    toDate: JsString,
    lastUpdated: string,
    affectedLines: seq<string>,
    affectedStations: seq<JsString>)

  /** `Object.values(disruptions || {})[0]`: the first disruption, if any. */
  function FirstDisruption(disruptions: Option<seq<LineDisruption>>): (d: Option<DisruptionInfo>)
    ensures d.Some? <==> disruptions.Some? && disruptions.value != []
    ensures d.Some? ==> d.value == disruptions.value[0].info
  {
    if disruptions.Some? && disruptions.value != [] then Some(disruptions.value[0].info)
    else None
  }

  /** `Object.keys(disruptions || {})`: the lines, in key order. */
  function Lines(disruptions: Option<seq<LineDisruption>>): (lines: seq<string>)
    ensures disruptions.None? ==> lines == []
    ensures disruptions.Some? ==>
      |lines| == |disruptions.value| &&
      forall k :: 0 <= k < |lines| ==> lines[k] == disruptions.value[k].line
  {
    if disruptions.None? then []
    else seq(|disruptions.value|, k requires 0 <= k < |disruptions.value| => disruptions.value[k].line)
  }

  /** `firstDisruption?.type || 'Disruption'`: the status shown for a
      station, which the navigation list uses too. */
  function Status(p: TransportProps): (status: string)
    ensures status != ""
    ensures var d := FirstDisruption(p.disruptions);
      d.Some? && Truthy(d.value.kind) ==> status == d.value.kind.s
    ensures var d := FirstDisruption(p.disruptions);
      !(d.Some? && Truthy(d.value.kind)) ==> status == "Disruption"
  {
    var d := FirstDisruption(p.disruptions);
    if d.Some? then OrElse(d.value.kind, "Disruption") else "Disruption"
  }

  /** `firstDisruption?.fromDate || now`: when the disruption started, or
      the current time `nowIso` when the feed does not say. */
  function StartDate(p: TransportProps, nowIso: string): (date: string)
    ensures var d := FirstDisruption(p.disruptions);
      d.Some? && Truthy(d.value.fromDate) ==> date == d.value.fromDate.s
    ensures var d := FirstDisruption(p.disruptions);
      !(d.Some? && Truthy(d.value.fromDate)) ==> date == nowIso
  {
    var d := FirstDisruption(p.disruptions);
    if d.Some? then OrElse(d.value.fromDate, nowIso) else nowIso
  }

  /** The object literal built from the found station.  The coordinates
      are `[long, lat]` from the properties, not the geometry; the
      description is the first disruption's, else the service followed by
      " disruption"; there is never an end date; the affected lines are
      the keys of `disruptions` and the only affected station is the
      station itself.  The start date and the last-updated date fall back
      to the same `nowIso`: the two clock reads are taken as one instant. */
  function TransportOf(p: TransportProps, nowIso: string): (r: TransportDisruptionData)
    ensures r.id == p.id && r.service == p.service && r.commonName == p.commonName
    ensures r.coordinates == NumberPair(p.long, p.lat)
    ensures r.status == Status(p)
    ensures var d := FirstDisruption(p.disruptions);
      d.Some? && Truthy(d.value.description) ==> r.description == d.value.description.s
    ensures var d := FirstDisruption(p.disruptions);
      !(d.Some? && Truthy(d.value.description)) ==> r.description == Render(p.service) + " disruption"
    ensures r.description != ""
    ensures r.fromDate == StartDate(p, nowIso) && r.lastUpdated == r.fromDate
    ensures r.toDate == Undefined
    ensures r.affectedLines == Lines(p.disruptions)
    ensures r.affectedStations == [p.commonName]
  {
    var d := FirstDisruption(p.disruptions);
    TransportDisruptionData(
      id := p.id,
      service := p.service,
      commonName := p.commonName,
      lat := p.lat,
      long := p.long,
      coordinates := NumberPair(p.long, p.lat),
      disruptions := p.disruptions,
      status := Status(p),
      description :=
        if d.Some? && Truthy(d.value.description) then d.value.description.s
        else Render(p.service) + " disruption",
      fromDate := StartDate(p, nowIso),
      toDate := Undefined,
      lastUpdated := StartDate(p, nowIso),
      affectedLines := Lines(p.disruptions),
      affectedStations := [p.commonName])
  }

  /** `properties.id` of a station feature. */
  function StationId(p: TransportProps): JsString {
    p.id
  }

  /** `getTransportDisruption(id)` after the fetch: a non-ok response is
      an API error; otherwise the first station whose id equals `id` is
      mapped, a station without properties on the way throws a TypeError,
      and reaching the end is a not-found error.  `nowIso` stands for
      `new Date().toISOString()`. */
  method GetTransportDisruption(response: Response<Feature<TransportProps>>, id: string, nowIso: string)
    returns (r: Result<TransportDisruptionData, FetchError>)
    ensures !response.ok ==> r == Failure(ApiError(response.status))
    ensures response.ok ==>
      var fs := FeaturesOrEmpty(response);
      var keys := Ids(fs, StationId);
      && (forall i: nat :: FoundAt(keys, id, i) ==>
            r == Success(TransportOf(fs[i].properties.value, nowIso)))
      && (forall i: nat :: BrokenAt(keys, id, i) ==> r == Failure(TypeError))
      && (PassesBefore(keys, id, |keys|) ==> r == Failure(NotFound(id)))
    ensures r.Success? ==> r.value.id == Str(id)
  {
    if !response.ok {
      return Failure(ApiError(response.status));
    }
    var features := FeaturesOrEmpty(response);
    ghost var keys := Ids(features, StationId);
    forall i: nat {
      FirstHitDetermined(keys, id, i);
    }
    var i := 0;
    while i < |features|
      invariant i <= |features|
      invariant PassesBefore(keys, id, i)
    {
      var feature := features[i];
      if feature.properties.None? {
        return Failure(TypeError);
      }
      if feature.properties.value.id == Str(id) {
        return Success(TransportOf(feature.properties.value, nowIso));
      }
      i := i + 1;
    }
    return Failure(NotFound(id));
  }
}
