/** The parsed JSON value that `json.load` hands to the loader, and the
    three ways the loader reads it: subscripting an object by a key,
    reading a string field, and iterating with `for`. */
module Json {
  import opened Wrappers

  /** A JSON document as Python's `json` module returns it. Numbers are
      kept as integers: the loader never looks inside them. */
  datatype Json =
    | JNull
    | JBool(b: bool)
    | JNumber(n: int)
    | JString(s: string)
    | JArray(items: seq<Json>)
    | JObject(fields: map<string, Json>)

  /** `j[key]`: only an object that holds the key yields a value; a
      missing key (KeyError) or a non-object (TypeError) is a failure. */
  function Field(j: Json, key: string): (r: Option<Json>)
    ensures r.Some? <==> j.JObject? && key in j.fields
    ensures r.Some? ==> r.value == j.fields[key]
  {
    if j.JObject? && key in j.fields then Some(j.fields[key]) else None
  }

  /** `j[key]` used as a code or a description: the value must be a
      JSON string. */
  function StringField(j: Json, key: string): (r: Option<string>)
    ensures r.Some? <==> Field(j, key).Some? && Field(j, key).value.JString?
    ensures r.Some? ==> Field(j, key) == Some(JString(r.value))
  {
    match Field(j, key)
    case Some(JString(s)) => Some(s)
    case _ => None
  }

  /** The elements `for x in j` visits, when iterating them can succeed.
      A list yields its items. An empty string or an empty object runs
      the loop zero times. A non-empty string or object yields strings,
      and subscripting a string by a key name fails, so the whole decode
      fails: it is reported here as a failure. Null, booleans and numbers
      are not iterable. */
  function Items(j: Json): (r: Option<seq<Json>>)
    ensures j.JArray? ==> r == Some(j.items)
    ensures r.Some? && !j.JArray? ==> r == Some([])
    ensures r.None? <==> !j.JArray? && j != JString("") && j != JObject(map[])
  {
    match j
    case JArray(items) => Some(items)
    case JString(s) => if s == "" then Some([]) else None
    case JObject(fields) => if fields == map[] then Some([]) else None
    case _ => None
  }

  /** The elements of `for x in j[key]`, or a failure. */
  function FieldItems(j: Json, key: string): (r: Option<seq<Json>>)
    ensures r.Some? <==> Field(j, key).Some? && Items(Field(j, key).value).Some?
    ensures r.Some? ==> Field(j, key).Some? && Items(Field(j, key).value) == r
    ensures Field(j, key).None? ==> r.None?
  {
    match Field(j, key)
    case Some(v) => Items(v)
    case None => None
  }

  /** The elements of `j[key]`, or none when they cannot be read; used
      only to count what the input holds. */
  function Children(j: Json, key: string): seq<Json>
  {
    match FieldItems(j, key)
    case Some(xs) => xs
    case None => []
  }
}
