/**
 * A decoded JSON value, and the Python built-ins the program applies to such
 * values: truthiness, `str()`, `float()` and `int()`. The text grammar of
 * Python's `float()`, of ISO-8601 timestamps and the `str()` of a float, list
 * or dict are not written out: they are given as a `Conversions` value.
 */
module Json {
  import opened Wrappers
  import opened Text

  datatype Json =
    | JNull
    | JBool(b: bool)
    | JInt(i: int)
    | JFloat(f: real)
    | JStr(s: string)
    | JArr(items: seq<Json>)
    | JObj(fields: map<string, Json>)

  /** Conversions whose text grammar is Python's own: `float(text)`,
      `datetime.fromisoformat` (to UTC seconds since the epoch), and `str()` of
      a float, list or dict. */
  datatype Conversions = Conversions(
    floatOf: string -> Option<real>,
    isoOf: string -> Option<int>,
    reprOf: Json -> string)

  /** A list or a dict: `in` on a set raises for these. */
  predicate Unhashable(j: Json) {
    j.JArr? || j.JObj?
  }

  /** The text of the `TypeError` that `in` on a set raises for an unhashable value. */
  function UnhashableError(j: Json): string {
    if j.JArr? then "unhashable type: 'list'" else "unhashable type: 'dict'"
  }

  /** Python truthiness (`if value:`). */
  predicate Truthy(j: Json) {
    match j
    case JNull => false
    case JBool(b) => b
    case JInt(i) => i != 0
    case JFloat(f) => f != 0.0
    case JStr(s) => s != ""
    case JArr(items) => items != []
    case JObj(fields) => fields != map[]
  }

  /** `d.get(key, default)`. */
  function Get(d: map<string, Json>, key: string, default: Json): (r: Json)
    ensures key !in d ==> r == default
  {
    if key in d then d[key] else default
  }

  /** `str(value)`. */
  function PyStr(j: Json, conv: Conversions): (r: string)
    ensures j.JStr? ==> r == j.s
  {
    match j
    case JStr(s) => s
    case JNull => "None"
    case JBool(b) => if b then "True" else "False"
    case JInt(i) => IntToString(i)
    case _ => conv.reprOf(j)
  }

  /** `float(value)`; `None` stands for the `TypeError`/`ValueError` it raises. */
  function PyFloat(j: Json, conv: Conversions): Option<real>
  {
    match j
    case JInt(i) => Some(i as real)
    case JFloat(f) => Some(f)
    case JBool(b) => Some(if b then 1.0 else 0.0)
    case JStr(s) => conv.floatOf(s)
    case _ => None
  }

  /** `int(x)` of a float: truncation toward zero. */
  function TruncReal(f: real): (r: int)
    ensures f >= 0.0 ==> r as real <= f < r as real + 1.0
    ensures f < 0.0 ==> r as real - 1.0 < f <= r as real
  {
    if f >= 0.0 then f.Floor else -((-f).Floor)
  }

  /** `int(value)`; `None` stands for the error it raises. */
  function PyInt(j: Json): Option<int>
  {
    match j
    case JInt(i) => Some(i)
    case JFloat(f) => Some(TruncReal(f))
    case JBool(b) => Some(if b then 1 else 0)
    case JStr(s) => ParseInt(s)
    case _ => None
  }

  /** The server's `parse_iso8601`: a falsy value means "now"; a string is read as an
      ISO-8601 instant; `None` stands for the exception anything else raises. */
  function ParseIso8601(value: Json, conv: Conversions, now: int): (r: Option<int>)
    ensures !Truthy(value) ==> r == Some(now)
    ensures Truthy(value) && !value.JStr? ==> r.None?
  {
    if !Truthy(value) then Some(now)
    else if value.JStr? then conv.isoOf(value.s)
    else None
  }
}
