/** The structured data that travels as a message payload. */
module Json {

  /** A JSON value. Numbers are kept as integers: floating point is not part of this model. */
  datatype Value =
    | JNull
    | JBool(b: bool)
    | JNumber(n: int)
    | JString(s: string)
    | JArray(items: seq<Value>)
    | JObject(fields: map<string, Value>)
}
