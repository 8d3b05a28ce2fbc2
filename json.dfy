/**
 * Decoded JSON values, as `encoding/json` hands them to the parser when it
 * decodes into `interface{}`: nil, bool, float64, string, []interface{} and
 * map[string]interface{}.
 */
module Json {
  /** A JSON number. Go decodes every number to a float64; the model never
      inspects its value, so it is kept as an opaque bit pattern. */
  datatype Float64 = Float64(bits: bv64)

  datatype Json =
    | JNull
    | JBool(b: bool)
    | JNum(n: Float64)
    | JStr(s: string)
    | JArr(items: seq<Json>)
    | JObj(members: map<string, Json>)
}
