// The GeoJSON feeds the resolvers and the navigation builders read: a list
// of features, each with a `properties` object and a `geometry`, and the
// scan that finds the feature with a requested id.

module Feed {
  import opened JsValues

  /** One GeoJSON feature: its `properties` object (absent when the feed
      sends none) and its `geometry` (absent likewise). */
  datatype Feature<P> = Feature(properties: Option<P>, geometry: Option<Geometry>)

  /** `data.features || []`: a missing or null feature list is empty. */
  function FeaturesOrEmpty<F>(response: Response<F>): (fs: seq<F>)
    ensures response.features.Some? ==> fs == response.features.value
    ensures response.features.None? ==> fs == []
  {
    if response.features.Some? then response.features.value else []
  }

  /** The id read from each feature by `idOf`, `None` where `properties`
      is absent: what a scan over the features compares with the id. */
  function Ids<P>(fs: seq<Feature<P>>, idOf: P -> JsString): (keys: seq<Option<JsString>>)
    ensures |keys| == |fs|
    ensures forall k :: 0 <= k < |fs| ==>
      (fs[k].properties.None? <==> keys[k].None?) &&
      (fs[k].properties.Some? ==> keys[k] == Some(idOf(fs[k].properties.value)))
  {
    seq(|fs|, k requires 0 <= k < |fs| =>
      if fs[k].properties.Some? then Some(idOf(fs[k].properties.value)) else None)
  }

  /** Every feature before position `i` has properties and an id other
      than `id`: a scan for `id` passes them all. */
  predicate PassesBefore(keys: seq<Option<JsString>>, id: string, i: nat) {
    i <= |keys| && forall k :: 0 <= k < i ==> keys[k].Some? && keys[k] != Some(Str(id))
  }

  /** Feature `i` is the first whose id is `id`. */
  predicate FoundAt(keys: seq<Option<JsString>>, id: string, i: nat) {
    i < |keys| && keys[i] == Some(Str(id)) && PassesBefore(keys, id, i)
  }

  /** Feature `i` has no properties and no feature before it has the id:
      reading its id is where the scan throws. */
  predicate BrokenAt(keys: seq<Option<JsString>>, id: string, i: nat) {
    i < |keys| && keys[i].None? && PassesBefore(keys, id, i)
  }

  /** Where a scan for an id stops: at the first feature whose id equals
      it, at the first feature with no properties object (reading its id
      throws a TypeError), or nowhere. */
  datatype Hit = Found(index: nat) | Broken(index: nat) | Missing

  /** The scan from position `from` over the features' id fields, `None`
      standing for a feature without properties. */
  function FirstHitFrom(keys: seq<Option<JsString>>, id: string, from: nat): (h: Hit)
    requires PassesBefore(keys, id, from)
    ensures h.Found? ==> FoundAt(keys, id, h.index)
    ensures h.Broken? ==> BrokenAt(keys, id, h.index)
    ensures h.Missing? ==> PassesBefore(keys, id, |keys|)
    decreases |keys| - from
  {
    if from == |keys| then Missing
    else if keys[from].None? then Broken(from)
    else if keys[from] == Some(Str(id)) then Found(from)
    else FirstHitFrom(keys, id, from + 1)
  }

  /** The scan over all features. */
  function FirstHit(keys: seq<Option<JsString>>, id: string): (h: Hit)
    ensures h.Found? ==> FoundAt(keys, id, h.index)
    ensures h.Broken? ==> BrokenAt(keys, id, h.index)
    ensures h.Missing? ==> PassesBefore(keys, id, |keys|)
  {
    FirstHitFrom(keys, id, 0)
  }

  /** The three outcomes exclude each other, so each one determines the
      scan: the first feature with the id is the one found, the first
      feature without properties before any match is where it throws, and
      with neither the scan reaches the end. */
  lemma FirstHitDetermined(keys: seq<Option<JsString>>, id: string, i: nat)
    ensures FoundAt(keys, id, i) ==> FirstHit(keys, id) == Found(i)
    ensures BrokenAt(keys, id, i) ==> FirstHit(keys, id) == Broken(i)
    ensures PassesBefore(keys, id, |keys|) ==> FirstHit(keys, id) == Missing
  {
  }
}
