/**
 * The JSON values `serde_json::Value` holds, and the accessors the routes chain together
 * (`get`, `as_str`, `as_array`, `as_u64`). Parsing text into a value is left to a function
 * the callers are given.
 */
module Json {
  import opened Wrappers

  /** Numbers are integers here; an object keeps the last value given for a key. */
  datatype Json =
    | Null
    | Bool(b: bool)
    | Number(n: int)
    | Str(s: string)
    | Array(items: seq<Json>)
    | Object(fields: map<string, Json>)

  const U64Bound: nat := 0x1_0000_0000_0000_0000

  /** `Value::get(key)`: a field of an object; None for a missing key or a non-object. */
  function Get(v: Json, key: string): (r: Option<Json>)
    ensures r.Some? <==> v.Object? && key in v.fields
    ensures r.Some? ==> r.value == v.fields[key]
  {
    match v
    case Object(fields) => if key in fields then Some(fields[key]) else None
    case _ => None
  }

  /** `.and_then(|v| v.as_str())`. */
  function AsStr(v: Option<Json>): (r: Option<string>)
    ensures r.Some? <==> v.Some? && v.value.Str?
    ensures r.Some? ==> r.value == v.value.s
  {
    if v.Some? && v.value.Str? then Some(v.value.s) else None
  }

  /** `.and_then(|v| v.as_array())`. */
  function AsArray(v: Option<Json>): (r: Option<seq<Json>>)
    ensures r.Some? <==> v.Some? && v.value.Array?
    ensures r.Some? ==> r.value == v.value.items
  {
    if v.Some? && v.value.Array? then Some(v.value.items) else None
  }

  /** `.and_then(|v| v.as_u64())`: a number in the range of `u64`. */
  function AsU64(v: Option<Json>): (r: Option<nat>)
    ensures r.Some? <==> v.Some? && v.value.Number? && 0 <= v.value.n < U64Bound
    ensures r.Some? ==> r.value == v.value.n
  {
    if v.Some? && v.value.Number? && 0 <= v.value.n < U64Bound then Some(v.value.n as nat) else None
  }
}
