/** JSON values, as returned by `JSON.parse`. */
module JsonValue {

  datatype Json =
    | JNull
    | JBool(b: bool)
    | JNumber(n: real)
    | JString(s: string)
    | JArray(items: seq<Json>)
    | JObject(members: seq<(string, Json)>)
  {
    /** JavaScript truthiness of a parsed value (`JSON.parse` never yields `NaN` or `undefined`). */
    predicate Truthy() {
      match this
      case JNull => false
      case JBool(b) => b
      case JNumber(n) => n != 0.0
      case JString(s) => s != ""
      case _ => true
    }
  }
}
