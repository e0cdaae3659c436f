/** JSON documents. */
module Json {
  /** Object members keep their document order. */
  datatype Json =
    | JNull
    | JBool(flag: bool)
    | JInt(int_value: int)
    | JFloat(float_value: real)
    | JString(text: string)
    | JArray(elements: seq<Json>)
    | JObject(members: seq<(string, Json)>)
}
