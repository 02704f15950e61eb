/**
 * A parsed JSON document and the typed lookups the tile source reads it with
 * (`getJSONArray`, `getString`, `getInt`). Each lookup fails, instead of throwing
 * a JSON exception, when the entry is missing or has another type.
 */
module OrgJson {
  import opened Wrappers

  datatype Json =
    | JNull
    | JBool(b: bool)
    | JNumber(n: int)
    | JString(s: string)
    | JArray(items: seq<Json>)
    | JObject(members: map<string, Json>)

  /** `json.getJSONArray(key)` */
  function GetJSONArray(obj: map<string, Json>, key: string): (r: Option<seq<Json>>)
    ensures r.Some? <==> key in obj && obj[key].JArray?
    ensures r.Some? ==> obj[key] == JArray(r.value)
  {
    if key in obj && obj[key].JArray? then Some(obj[key].items) else None
  }

  /** `array.getString(index)` */
  function GetString(items: seq<Json>, index: int): (r: Option<string>)
    ensures r.Some? <==> 0 <= index < |items| && items[index].JString?
    ensures r.Some? ==> items[index] == JString(r.value)
  {
    if 0 <= index < |items| && items[index].JString? then Some(items[index].s) else None
  }

  /** `json.getInt(key)` */
  function GetInt(obj: map<string, Json>, key: string): (r: Option<int>)
    ensures r.Some? <==> key in obj && obj[key].JNumber?
    ensures r.Some? ==> obj[key] == JNumber(r.value)
  {
    if key in obj && obj[key].JNumber? then Some(obj[key].n) else None
  }
}
