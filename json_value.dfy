/** JSON documents as `encoding/json` hands them to the program once decoded into `interface{}`. */
module JsonValue {
  import opened Wrappers

  /** A decoded JSON value. Numbers are float64 in Go; they are modelled as reals. */
  datatype Json =
    | JNull
    | JBool(b: bool)
    | JNum(n: real)
    | JStr(s: string)
    | JArr(items: seq<Json>)
    | JObj(fields: map<string, Json>)

  /** `json.Unmarshal` into a `map[string]interface{}`: `doc` is None when the text is not
      well-formed JSON. An object gives its members, `null` leaves the map nil (no members),
      and any other value is an unmarshalling error. */
  function DecodeObject(doc: Option<Json>): Option<map<string, Json>>
  {
    match doc
    case Some(JObj(fields)) => Some(fields)
    case Some(JNull) => Some(map[])
    case _ => None
  }

  /** Indexing a `map[string]interface{}`: a missing key reads as the nil interface, which
      every type assertion rejects exactly as it rejects a JSON `null`. */
  function Member(m: map<string, Json>, key: string): Json
  {
    if key in m then m[key] else JNull
  }
}
