/** The values `json.loads` produces and `json.dumps` consumes. Numbers are
    integers only; an object is a `dict` with its members in document order. */
module JsonValue {
  import opened PyDict

  datatype Json =
    | JNull
    | JBool(b: bool)
    | JNum(n: int)
    | JStr(s: string)
    | JArr(items: seq<Json>)
    | JObj(members: Dict<Json>)
}
