/** JSON-like values, as held in the in-memory document corpus. */
module Json {
  import Dicts

  datatype Json =
    | JNull
    | JBool(b: bool)
    | JNum(n: int)
    | JStr(s: string)
    | JArr(items: seq<Json>)
    | JObj(fields: Dicts.Dict<string, Json>)

  /** Python's name for the type of the value (`type(v).__name__`). */
  function PyTypeName(v: Json): string {
    match v
    case JNull => "NoneType"
    case JBool(_) => "bool"
    case JNum(_) => "int"
    case JStr(_) => "str"
    case JArr(_) => "list"
    case JObj(_) => "dict"
  }
}
