/** JSON values as the JSONB columns hold them: one value per key, compared structurally. */
module Json {
  import opened Wrappers

  datatype Json =
    | JsonNull
    | JsonBool(b: bool)
    | JsonNumber(n: int)
    | JsonString(s: string)
    | JsonArray(items: seq<Json>)
    | JsonObject(fields: map<string, Json>)

  /** SQL's `json -> 'key'`: SQL NULL (None) unless `j` is an object that has the key. */
  function Arrow(j: Json, key: string): Option<Json> {
    if j.JsonObject? && key in j.fields then Some(j.fields[key]) else None
  }

  const EMPTY_OBJECT := JsonObject(map[])
  const EMPTY_ARRAY := JsonArray([])
}
