// `getEvent` (src/lib/api/events.ts) once the feed has been fetched: the
// scan for the feature with the requested id and the mapping of its
// properties onto the event record the pages show.

module Events {
  import opened JsValues
  import opened Feed

  /** The string-valued `properties` of an event feature. */
  datatype EventProps = EventProps(
    id: JsString,
    title: JsString,
    category: JsString,
    size: JsString,
    venueName: JsString,
    startLocal: JsString,
    trueEnd: JsString,
    postcode: JsString,
    venueFormattedAddress: JsString,
    icon: JsString,
    comment: JsString)

  /** The event record `getEvent` resolves to. */
  datatype EventData = EventData(
    id: JsString,
    title: JsString,
    category: string,
    size: JsString,
    venueName: JsString,
    startLocal: JsString,
    trueEnd: JsString,
    postcode: JsString,
    venueFormattedAddress: JsString,
    coordinates: Option<Pair>,
    icon: JsString,
    comment: JsString,
    description: string,
    ticketUrl: JsString,
    organizer: JsString)

  /** `properties.id` of an event feature. */
  function EventId(p: EventProps): JsString {
    p.id
  }

  /** The object literal built from a matching feature.  Reading
      `feature.geometry.coordinates` throws when the geometry is missing;
      the coordinates themselves are copied as they are, even when absent. */
  function EventOf(p: EventProps, geometry: Option<Geometry>): (r: Result<EventData, FetchError>)
    ensures r.Failure? <==> geometry.None?
    ensures r.Failure? ==> r.error == TypeError
    ensures r.Success? ==> r.value.coordinates == geometry.value.coordinates
    ensures r.Success? ==> r.value.id == p.id && r.value.title == p.title && r.value.comment == p.comment
    ensures r.Success? && Truthy(p.category) ==> r.value.category == p.category.s
    ensures r.Success? && !Truthy(p.category) ==> r.value.category == "event"
    ensures r.Success? && Truthy(p.comment) ==> r.value.description == p.comment.s
    ensures r.Success? && !Truthy(p.comment) ==> r.value.description == Render(p.category) + " event"
    ensures r.Success? ==> r.value.ticketUrl == Undefined && r.value.organizer == Undefined
  {
    if geometry.None? then Failure(TypeError)
    else
      Success(EventData(
        id := p.id,
        title := p.title,
        category := OrElse(p.category, "event"),
        size := p.size,
        venueName := p.venueName,
        startLocal := p.startLocal,
        trueEnd := p.trueEnd,
        postcode := p.postcode,
        venueFormattedAddress := p.venueFormattedAddress,
        coordinates := geometry.value.coordinates,
        icon := p.icon,
        comment := p.comment,
        description := if Truthy(p.comment) then p.comment.s else Render(p.category) + " event",
        ticketUrl := Undefined,
        organizer := Undefined))
  }

  /** `getEvent(id)` after the fetch: a non-ok response is an API error;
      otherwise the features are scanned in order and the first one whose
      id equals `id` is mapped; a feature without properties on the way
      throws a TypeError, and reaching the end is a not-found error. */
  method GetEvent(response: Response<Feature<EventProps>>, id: string)
    returns (r: Result<EventData, FetchError>)
    ensures !response.ok ==> r == Failure(ApiError(response.status))
    ensures response.ok ==>
      var fs := FeaturesOrEmpty(response);
      var keys := Ids(fs, EventId);
      && (forall i: nat :: FoundAt(keys, id, i) ==>
            r == EventOf(fs[i].properties.value, fs[i].geometry))
      && (forall i: nat :: BrokenAt(keys, id, i) ==> r == Failure(TypeError))
      && (PassesBefore(keys, id, |keys|) ==> r == Failure(NotFound(id)))
  {
    if !response.ok {
      return Failure(ApiError(response.status));
    }
    var features := FeaturesOrEmpty(response);
    ghost var keys := Ids(features, EventId);
    forall i: nat {
      FirstHitDetermined(keys, id, i);
    }
    var i := 0;
    while i < |features|
      invariant i <= |features|
      invariant PassesBefore(keys, id, i)
    {
      var feature := features[i];
      if feature.properties.None? {
        return Failure(TypeError);
      }
      if feature.properties.value.id == Str(id) {
        return EventOf(feature.properties.value, feature.geometry);
      }
      i := i + 1;
    }
    return Failure(NotFound(id));
  }
}
