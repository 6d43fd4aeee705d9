/** The document tree shared by the JSON parser and the document paths. */
module Values {
  datatype Result<+T> = Ok(value: T) | Err

  /** Floating-point numbers keep their text; their numeric value plays no role here. */
  datatype Unknown =
    | Null
    | Bool(flag: bool)
    | I64(number: int)
    | F64(text: string)
    | String(chars: string)
    | Array(items: seq<Unknown>)
    | Object(fields: map<string, Unknown>)
}
