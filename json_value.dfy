/**
  The values that `json.loads` and `ast.literal_eval` can hand back: a
  JSON-like tree. A Python dict is an `Obj`; only string keys are kept, since
  a key of any other type can never equal one of the normaliser's labels.
 */
module Json {

  datatype Value =
    | Null
    | Bool(b: bool)
    | Num(literal: string)          // a number, kept in its written form
    | Str(s: string)
    | List(items: seq<Value>)
    | Obj(fields: Mapping)
    | Opaque(literal: string)       // a Python literal with no JSON form: tuple, set, bytes, complex

  /** A Python dict with string keys. */
  type Mapping = map<string, Value>
}
