/** The decoded JSON value that `res.json()` hands to the validator.
    Numbers are unbounded reals: the engine only compares and copies them. */
module JsonValues {

  datatype Json =
    | Null
    | Bool(b: bool)
    | Num(n: real)
    | Str(s: string)
    | Array(elems: seq<Json>)
    | Object(fields: map<string, Json>)
}
