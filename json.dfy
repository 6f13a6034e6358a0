/**
  The JSON document model that every message of the plugin protocol is
  built from. Object keys are kept in a map: the JSON library orders object
  keys itself, so key order carries no meaning. Floating-point numbers are
  not modelled; integral numbers are.
 */
module JsonValues {

  datatype Json =
    | Null
    | Boolean(b: bool)
    | Number(n: int)
    | Str(str: string)
    | Array(arr: seq<Json>)
    | Object(obj: map<string, Json>)
}
