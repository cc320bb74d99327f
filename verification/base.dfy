/** Values shared by both jobs: optional values, the outcome of a call that
    may raise, one cell of a table row or JSON object, and Python's
    truthiness and str() on such a cell. */
module Base {
  import opened Text

  datatype Option<T> = None | Some(value: T)

  /** The outcome of a call that either returns a value or raises an
      exception whose str() is `error`. */
  datatype Result<T> = Ok(value: T) | Err(error: string)

  /** One cell: a JSON value from the partner API, a DataFrame cell or a
      column of the candidates_daily_report table. A timestamp is a count of
      microseconds since the Unix epoch, in UTC. */
  datatype Value = Null | Str(s: string) | Int(i: int) | Bool(b: bool) | Time(micros: int)

  /** A JSON object of the partner API: key to value. */
  type Record = map<string, Value>

  /** A column a row does not have reads as NULL (pandas NaN, SQL NULL). */
  function Get<K>(r: map<K, Value>, column: K): Value
  {
    if column in r then r[column] else Null
  }

  /** Python truthiness of a cell (`if x:` / `all([...])`). */
  predicate Truthy(v: Value)
  {
    match v
    case Null => false
    case Str(s) => s != ""
    case Int(i) => i != 0
    case Bool(b) => b
    case Time(_) => true
  }

  /** Python's str() of a cell, as an f-string renders it. */
  function Show(v: Value): string
  {
    match v
    case Null => "None"
    case Str(s) => s
    case Int(i) => IntToString(i)
    case Bool(b) => if b then "True" else "False"
    case Time(t) => IntToString(t)
  }
}
