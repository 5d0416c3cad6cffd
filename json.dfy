/** Decoded JSON as the pipeline receives it from the upstream endpoints. */
module Json {

  datatype Option<+T> = None | Some(value: T)

  datatype Result<+T, +E> = Ok(value: T) | Err(error: E)

  /** A JSON value. `Null` also stands for the missing cell pandas fills in
      (None / NaN / NaT) when a column has no value for a row. */
  datatype Value =
    | Null
    | Bool(b: bool)
    | Int(i: int)
    | Num(n: real)
    | Str(s: string)
    | Arr(items: seq<Value>)
    | Obj(fields: map<string, Value>)

  /** One raw record: a JSON object, keyed by field name. */
  type Record = map<string, Value>

  /** Python's `all(field in record for field in required)`: a presence check only. */
  predicate HasAll(r: Record, required: set<string>)
  {
    forall field | field in required :: field in r
  }

  /** Python's `record.get(key, default)`. */
  function Get(r: Record, key: string, default: Value): Value
  {
    if key in r then r[key] else default
  }
}
