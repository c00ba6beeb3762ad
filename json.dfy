/**
 * The user attribute record a session carries. The source stores it as the
 * text `json.dumps(userd)` and returns `json.loads` of that text; this model
 * takes that round trip as the identity and stores the decoded value itself.
 */
module Json {

  /** A decoded JSON document (numbers are limited to integers). */
  datatype Json =
    | JNull
    | JBool(b: bool)
    | JNumber(n: int)
    | JString(s: string)
    | JArray(items: seq<Json>)
    | JObject(fields: map<string, Json>)

  /** A user attribute record: a Python dict with string keys. */
  type UserDict = map<string, Json>
}
