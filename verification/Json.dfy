// JSON values, and the library functions the gateway takes as given.

module Json {
  import opened Domain

  datatype Json =
    | JNull
    | JBool(value: bool)
    | JNumber(text: string)
    | JString(text: string)
    | JArray(items: seq<Json>)
    | JObject(fields: map<string, Json>)

  function AsStr(j: Option<Json>): Option<string> {
    if j.Some? && j.value.JString? then Some(j.value.text) else None
  }

  function Get(fields: map<string, Json>, key: string): Option<Json> {
    if key in fields then Some(fields[key]) else None
  }
}
