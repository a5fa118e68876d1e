/**
 * The JSON values that JSON.parse produces and JSON.stringify consumes.
 * The text form is not modelled: parse and stringify are parameters of the
 * members that use them, and what the model needs of them is stated once here.
 */
module Json {
  import opened Wrappers

  datatype Json =
    | JNull
    | JBool(b: bool)
    | JNumber(n: int)
    | JString(s: string)
    | JArray(items: seq<Json>)
    | JObject(fields: map<string, Json>)

  /** JSON.parse of JSON.stringify gives the value back. */
  ghost predicate RoundTrips(parse: string -> Option<Json>, stringify: Json -> string)
  {
    forall j :: parse(stringify(j)) == Some(j)
  }
}
