/** JSON values as the OpenAPI plugin handles them. Objects are maps: the source iterates them
    in key order, and nothing it computes depends on that order. */
module JsonValues {

  datatype Option<+T> = None | Some(value: T)

  /** The source's `Result<_, String>` without the message text. */
  datatype Result<+T> = Err | Ok(value: T)

  datatype Json =
    | Null
    | Bool(truth: bool)
    | Num(digits: string)
    | Str(text: string)
    | Arr(items: seq<Json>)
    | Obj(fields: map<string, Json>)

  /** `Value::get(key)` on any value: only objects have members. */
  function Get(value: Json, key: string): Option<Json> {
    if value.Obj? && key in value.fields then Some(value.fields[key]) else None
  }

  /** The string stored under `key`, when there is one. */
  function GetStr(value: Json, key: string): Option<string> {
    match Get(value, key)
    case Some(Str(text)) => Some(text)
    case _ => None
  }

  /** Renders values for sorting; `ToString` of the serialisation library. */
  type Printer = Json -> string
}
