/** Parsed JSON values as the browser sees them after `JSON.parse`, with the
    two JavaScript operations the client applies to them: optional member
    access (`v?.key`) and truthiness. Numbers are integers here. */
module Json {
  import opened Wrappers

  datatype Json =
    | JNull
    | JBool(b: bool)
    | JNumber(n: int)
    | JString(s: string)
    | JArray(items: seq<Json>)
    | JObject(fields: map<string, Json>)

  /** JavaScript `v?.key` on a parsed value: only an object with that own key
      yields something; `null`, numbers, strings, booleans and arrays yield
      `undefined` (None) for the keys used here. */
  function Member(v: Json, key: string): (r: Option<Json>)
    ensures r.Some? <==> v.JObject? && key in v.fields
    ensures r.Some? ==> r.value == v.fields[key]
  {
    match v
    case JObject(fields) => if key in fields then Some(fields[key]) else None
    case _ => None
  }

  /** JavaScript truthiness; `undefined` (None), `null`, `false`, `0` and `""`
      are the falsy values, every array and object is truthy. */
  predicate Truthy(v: Option<Json>) {
    match v
    case None => false
    case Some(JNull) => false
    case Some(JBool(b)) => b
    case Some(JNumber(n)) => n != 0
    case Some(JString(s)) => s != ""
    case Some(JArray(_)) => true
    case Some(JObject(_)) => true
  }
}
