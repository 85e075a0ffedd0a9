/** Option and JSON values, shared by every component of the model. */
module Prelude {
  datatype Option<+T> = None | Some(value: T)
}

/** Decoded JSON. Numbers are integers here; object member order is not part of a value. */
module JsonValues {
  datatype Json =
    | JNull
    | JBool(flag: bool)
    | JNum(number: int)
    | JStr(text: string)
    | JArr(items: seq<Json>)
    | JObj(fields: map<string, Json>)
}
