/** Values shared by every part of the model: optional values, results with
    an error message, and the JSON values that travel over the sockets. */
module Common {

  datatype Option<+T> = None | Some(value: T)

  /** A computation that either produces a value or raises with a message. */
  datatype Result<+T> = Ok(value: T) | Err(message: string)

  /** The outcome of a form's `validateForm`: accepted, or refused with the
      message its toast shows. */
  datatype Verdict = Accepted | Refused(message: string)

  /** A parsed JSON value. Numbers are modelled as integers. */
  datatype Json =
    | JNull
    | JBool(b: bool)
    | JNum(n: int)
    | JStr(s: string)
    | JArr(items: seq<Json>)
    | JObj(fields: map<string, Json>)

  /** JavaScript truthiness of a JSON value (`undefined` is modelled as JNull). */
  predicate Truthy(j: Json)
  {
    match j
    case JNull => false
    case JBool(b) => b
    case JNum(n) => n != 0
    case JStr(s) => s != ""
    case _ => true
  }

  /** Python's `d.get(key)`: the value under `key`, or None (JSON null) when absent. */
  function Get(d: map<string, Json>, key: string): Json
  {
    if key in d then d[key] else JNull
  }

  /** `xs` is `ys` with some elements left out and the rest kept in order. */
  predicate IsSubsequence<T(==)>(xs: seq<T>, ys: seq<T>)
    decreases |ys|
  {
    if ys == [] then xs == []
    else (xs != [] && xs[0] == ys[0] && IsSubsequence(xs[1..], ys[1..])) || IsSubsequence(xs, ys[1..])
  }
}
