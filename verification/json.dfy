/**
 * JSON values as `JSON.parse` produces them. Text decoding itself is left
 * abstract: callers receive a decoder `string -> Option<Json>` whose `None`
 * stands for a `SyntaxError`.
 */
module Json {
  import opened Wrappers

  datatype Json =
    | JNull
    | JBool(b: bool)
    | JNumber(n: real)
    | JString(s: string)
    | JArray(items: seq<Json>)
    | JObject(fields: map<string, Json>)

  /**
   * Reading property `key` of a decoded value that is not `null`: `None`
   * stands for `undefined` (arrays, strings, numbers and booleans carry none
   * of the properties this application reads).
   */
  function Property(j: Json, key: string): Option<Json> {
    if j.JObject? && key in j.fields then Some(j.fields[key]) else None
  }
}
