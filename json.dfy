/** The values `JSON.parse` can produce, and JavaScript's truthiness on them.

    `JSON.parse` itself is not modelled: callers receive its outcome as a
    parameter of type `string -> Result<Json>`. */
module Json {

  /** A parsed JSON value. Numbers are kept as mathematical reals; an object
      maps each key to its (last) value, as `JSON.parse` does. */
  datatype Json =
    | JNull
    | JBool(b: bool)
    | JNumber(n: real)
    | JString(s: string)
    | JArray(items: seq<Json>)
    | JObject(fields: map<string, Json>)

  /** JavaScript truthiness of a parsed value: `null`, `false`, `0` and the
      empty string are falsy; every array and object is truthy. */
  predicate Truthy(v: Json) {
    match v
    case JNull => false
    case JBool(b) => b
    case JNumber(n) => n != 0.0
    case JString(s) => s != ""
    case JArray(_) => true
    case JObject(_) => true
  }

  /** The empty list `[]`. */
  const EmptyArray: Json := JArray([])
}
