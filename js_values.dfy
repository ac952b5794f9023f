// JavaScript values as the feed and the views see them: optional string
// fields, the `||` fallback operator, template-literal rendering, and the
// outcomes of the feed resolvers.

module JsValues {

  datatype Option<+T> = None | Some(value: T)

  datatype Result<+T, +E> = Success(value: T) | Failure(error: E)

  /** A string-typed JSON property: absent, JSON null, or a string. */
  datatype JsString = Undefined | Null | Str(s: string)

  /** JavaScript truthiness of a string-typed value. */
  predicate Truthy(v: JsString) {
    v.Str? && v.s != ""
  }

  /** `v || w` on two string-typed values. */
  function Or(v: JsString, w: JsString): (r: JsString)
    ensures Truthy(v) ==> r == v
    ensures !Truthy(v) ==> r == w
  {
    if Truthy(v) then v else w
  }

  /** `v || d` with a string literal default: never undefined or null. */
  function OrElse(v: JsString, d: string): (r: string)
    ensures Truthy(v) ==> r == v.s
    ensures !Truthy(v) ==> r == d
    ensures r == d || (v == Str(r) && r != "")
  {
    if Truthy(v) then v.s else d
  }

  /** How a value prints inside a template literal `${v}`. */
  function Render(v: JsString): (r: string)
    ensures v.Str? ==> r == v.s
    ensures v == Undefined ==> r == "undefined"
    ensures v == Null ==> r == "null"
  {
    match v
    case Undefined => "undefined"
    case Null => "null"
    case Str(s) => s
  }

  /** A two-element JSON number array, such as GeoJSON `[lon, lat]`. */
  datatype Pair = Pair(first: real, second: real)

  /** The literal `[51.5074, -0.1276]` the resolvers fall back to. */
  const DEFAULT_COORDINATES: Pair := Pair(51.5074, -0.1276)

  /** A feature's `geometry` object; its `coordinates` may be missing. */
  datatype Geometry = Geometry(coordinates: Option<Pair>)

  /** Why a resolver rejects: a non-ok HTTP status, no feature with the
      requested id, or a property access on undefined/null (a TypeError). */
  datatype FetchError = ApiError(status: int) | NotFound(id: string) | TypeError

  /** The parsed body of one feed response: `ok`, the HTTP status, and the
      `features` array, which may be missing. */
  datatype Response<F> = Response(ok: bool, status: int, features: Option<seq<F>>)
}
