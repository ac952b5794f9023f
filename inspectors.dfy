// `getInspector` (src/lib/api/inspectors.ts) once the feed has been
// fetched: `Array.find` for the feature with the requested id, then the
// mapping of its properties onto the inspector record.

module Inspectors {
  import opened JsValues
  import opened Feed

  /** `properties.data` of an inspector feature. */
  datatype InspectorInfo = InspectorInfo(
    kind: JsString,
    originalMessage: JsString,
    formattedAddress: JsString,
    locationType: JsString,
    matchType: JsString,
    time: JsString)

  /** `properties` of an inspector feature; `data` may be missing. */
  datatype InspectorProps = InspectorProps(id: JsString, data: Option<InspectorInfo>)

  /** The inspector record `getInspector` resolves to. */
  datatype InspectorData = InspectorData(
    id: JsString,
    kind: JsString,
    locationName: JsString,
    coordinates: Pair,
    originalMessage: JsString,
    formattedAddress: JsString,
    locationType: JsString,
    matchType: JsString,
    time: JsString,
    lastUpdatedTimestamp: JsString,
    inspectorId: JsString)

  /** `properties.id` of an inspector feature. */
  function InspectorId(p: InspectorProps): JsString {
    p.id
  }

  /** The object literal built from the found feature: reading
      `inspectorData.type` throws when `data` is missing, and reading
      `feature.geometry.coordinates` throws when the geometry is; missing
      coordinates fall back to the literal pair.  The feed's id is the
      record's id, its location name and its inspector id, and `time` is
      also the last-updated timestamp. */
  function InspectorOf(p: InspectorProps, geometry: Option<Geometry>): (r: Result<InspectorData, FetchError>)
    ensures r.Failure? <==> p.data.None? || geometry.None?
    ensures r.Failure? ==> r.error == TypeError
    ensures r.Success? ==>
      r.value.id == p.id && r.value.locationName == p.id && r.value.inspectorId == p.id
    ensures r.Success? ==>
      r.value.time == p.data.value.time && r.value.lastUpdatedTimestamp == p.data.value.time
    ensures r.Success? && geometry.value.coordinates.Some? ==>
      r.value.coordinates == geometry.value.coordinates.value
    ensures r.Success? && geometry.value.coordinates.None? ==>
      r.value.coordinates == DEFAULT_COORDINATES
  {
    if p.data.None? || geometry.None? then Failure(TypeError)
    else
      var info := p.data.value;
      var coordinates :=
        if geometry.value.coordinates.Some? then geometry.value.coordinates.value
        else DEFAULT_COORDINATES;
      Success(InspectorData(
        id := p.id,
        kind := info.kind,
        locationName := p.id,
        coordinates := coordinates,
        originalMessage := info.originalMessage,
        formattedAddress := info.formattedAddress,
        locationType := info.locationType,
        matchType := info.matchType,
        time := info.time,
        lastUpdatedTimestamp := info.time,
        inspectorId := p.id))
  }

  /** `getInspector(id)` after the fetch: a non-ok response is an API
      error; `data.features.find(...)` throws when the feature list is
      missing or when a feature before the match has no properties; the
      first feature whose id equals `id` is mapped; no match is a
      not-found error. */
  function GetInspector(response: Response<Feature<InspectorProps>>, id: string)
    : (r: Result<InspectorData, FetchError>)
    ensures !response.ok ==> r == Failure(ApiError(response.status))
    ensures response.ok && response.features.None? ==> r == Failure(TypeError)
    ensures response.ok && response.features.Some? ==>
      var fs := response.features.value;
      var keys := Ids(fs, InspectorId);
      && (forall i: nat :: FoundAt(keys, id, i) ==>
            r == InspectorOf(fs[i].properties.value, fs[i].geometry))
      && (forall i: nat :: BrokenAt(keys, id, i) ==> r == Failure(TypeError))
      && (PassesBefore(keys, id, |keys|) ==> r == Failure(NotFound(id)))
    ensures r.Success? ==> r.value.id == Str(id) && r.value.inspectorId == Str(id)
  {
    if !response.ok then Failure(ApiError(response.status))
    else if response.features.None? then Failure(TypeError)
    else
      var fs := response.features.value;
      var keys := Ids(fs, InspectorId);
      assert forall i: nat :: FirstHit(keys, id) == Found(i) ==>
        keys[i] == Some(fs[i].properties.value.id);
      assert forall i: nat {:trigger FoundAt(keys, id, i)} {:trigger BrokenAt(keys, id, i)} ::
        (FoundAt(keys, id, i) ==> FirstHit(keys, id) == Found(i)) &&
        (BrokenAt(keys, id, i) ==> FirstHit(keys, id) == Broken(i))
      by {
        forall i: nat {
          FirstHitDetermined(keys, id, i);
        }
      }
      assert PassesBefore(keys, id, |keys|) ==> FirstHit(keys, id) == Missing by {
        FirstHitDetermined(keys, id, 0);
      }
      match FirstHit(keys, id)
      case Found(i) => InspectorOf(fs[i].properties.value, fs[i].geometry)
      case Broken(_) => Failure(TypeError)
      case Missing => Failure(NotFound(id))
  }
}
