/** JSON values as `serde_json` compares them: an integer and a float are never equal. */
module Json {
  datatype Json =
    | Null
    | Bool(flag: bool)
    | Integer(whole: int)
    | Float(number: real)
    | String(text: string)
    | Array(items: seq<Json>)
    | Object(fields: map<string, Json>)
}
