/** JSON documents as the Python code sees them after `json.loads`. */
module Json {
  import opened Wrappers

  datatype Json =
    | JNull
    | JBool(b: bool)
    | JNum(n: int)
    | JStr(s: string)
    | JArr(items: seq<Json>)
    | JObj(fields: map<string, Json>)

  /** Python truthiness of the decoded value. */
  predicate Truthy(j: Json) {
    match j
    case JNull => false
    case JBool(b) => b
    case JNum(n) => n != 0
    case JStr(s) => s != ""
    case JArr(items) => items != []
    case JObj(fields) => fields != map[]
  }

  /** `d.get(key)` on a JSON object; `None` for a missing key. */
  function Get(j: Json, key: string): (r: Option<Json>)
    requires j.JObj?
    ensures r.Some? <==> key in j.fields
    ensures r.Some? ==> r.value == j.fields[key]
  {
    if key in j.fields then Some(j.fields[key]) else None
  }

  /**
   * `data.setdefault(key, []).append(item)`: fails unless `data` is an object
   * whose `key`, when present, holds a list; otherwise `item` is appended to
   * that list (created empty when missing) and every other member is kept.
   */
  function SetDefaultAppend(data: Json, key: string, item: Json): (r: Result<Json>)
    ensures r.Ok? <==> data.JObj? && (key in data.fields ==> data.fields[key].JArr?)
    ensures r.Ok? ==> r.value.JObj? && r.value.fields.Keys == data.fields.Keys + {key}
    ensures r.Ok? ==> forall k :: k in data.fields && k != key ==> r.value.fields[k] == data.fields[k]
    ensures r.Ok? ==>
              && r.value.fields[key].JArr?
              && r.value.fields[key].items == (if key in data.fields then data.fields[key].items else []) + [item]
  {
    if !data.JObj? then Err(AttributeError)
    else if key in data.fields && !data.fields[key].JArr? then Err(AttributeError)
    else
      var old_ := if key in data.fields then data.fields[key].items else [];
      Ok(JObj(data.fields[key := JArr(old_ + [item])]))
  }
}
