/** The JSON-like values that flow through the service: what `json.loads`
    yields, what SDK objects dump to, and the loosely typed values that the
    classification engine puts in its prediction records. */
module JsonValues {
  import opened Wrappers

  /** Python's `int` and `float` are both `Number`; a dict's key order is not kept. */
  datatype Json =
    | Null
    | Bool(b: bool)
    | Number(n: real)
    | Str(s: string)
    | Array(items: seq<Json>)
    | Object(fields: map<string, Json>)

  /** Python truthiness: `None`, `False`, zero and empty containers are false. */
  predicate Truthy(v: Json) {
    match v
    case Null => false
    case Bool(b) => b
    case Number(n) => n != 0.0
    case Str(s) => s != []
    case Array(items) => items != []
    case Object(fields) => fields != map[]
  }

  /** `v[key]`: defined only on a dict holding the key; anything else raises
      (`KeyError` on a dict, `TypeError` on a list or a scalar). */
  function Subscript(v: Json, key: string): (r: Option<Json>)
    ensures r.Some? <==> v.Object? && key in v.fields
    ensures r.Some? ==> r.value == v.fields[key]
  {
    if v.Object? && key in v.fields then Some(v.fields[key]) else None
  }
}
