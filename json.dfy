/**
 * JSON values as Python's `json` module produces and consumes them: the primitive
 * kinds `str`, `int`, `float`, `bool`, `None` and the composite kinds `list`, `dict`.
 */
module Json {

  /** A JSON value. A float is only ever passed through, so it is kept as its raw IEEE bits. */
  datatype Value =
    | Str(s: string)
    | Int(i: int)
    | Float(bits: bv64)
    | Bool(b: bool)
    | Null
    | Arr(items: seq<Value>)
    | Obj(fields: map<string, Value>)

  /** True for the kinds the vector store accepts as metadata values: str, int, float, bool, None. */
  predicate IsPrimitive(v: Value) {
    v.Str? || v.Int? || v.Float? || v.Bool? || v.Null?
  }
}
