/** JSON request bodies as the route handlers see them after `request.json()`, with
    JavaScript's truthiness and property reads. */
module Json {
  import opened Base

  datatype Json =
    | JNull
    | JBool(b: bool)
    | JNum(n: real)
    | JStr(s: string)
    | JArr(items: seq<Json>)
    | JObj(fields: map<string, Json>)

  /** A property read `v.key`: `None` is `undefined`. Only objects have the named
      properties a request body is read for; on any other value the read gives
      `undefined`. Reading a property of `null` throws and is handled by the caller. */
  function Prop(v: Json, key: string): (r: Option<Json>)
    ensures r.Some? <==> v.JObj? && key in v.fields
    ensures r.Some? ==> r.value == v.fields[key]
  {
    if v.JObj? && key in v.fields then Some(v.fields[key]) else None
  }

  /** JavaScript truthiness of a possibly undefined value: `undefined`, `null`, `false`,
      `0` and `""` are falsy; arrays and objects, even empty ones, are truthy. */
  predicate JsTruthy(v: Option<Json>) {
    match v
    case None => false
    case Some(JNull) => false
    case Some(JBool(b)) => b
    case Some(JNum(n)) => n != 0.0
    case Some(JStr(s)) => |s| > 0
    case Some(JArr(_)) => true
    case Some(JObj(_)) => true
  }

  /** `Array.isArray`. */
  predicate IsArray(v: Option<Json>) {
    v.Some? && v.value.JArr?
  }
}
