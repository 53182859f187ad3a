/** JSON values as `json.load` hands them to the script: objects become
    dictionaries, arrays become lists. Only integral numbers are modelled. */
module JsonValue {

  datatype Json =
    | Null
    | Bool(b: bool)
    | Num(n: int)
    | Str(s: string)
    | Arr(items: seq<Json>)
    | Obj(fields: map<string, Json>)

  datatype Option<+T> = None | Some(value: T)
}
