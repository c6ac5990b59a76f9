/**
 * A decoded JSON value as Python's `json` module returns it (numbers are modelled as integers),
 * with the Python operations the adapters apply to it, and the values of request parameters.
 */
module Json {
  import opened Wrappers
  import opened PyStr

  datatype Json =
    | JNull
    | JBool(b: bool)
    | JInt(i: int)
    | JStr(s: string)
    | JList(items: seq<Json>)
    | JObj(fields: map<string, Json>)

  /** Python truthiness: `bool(v)`. */
  predicate Truthy(v: Json) {
    match v
    case JNull => false
    case JBool(b) => b
    case JInt(i) => i != 0
    case JStr(s) => s != []
    case JList(l) => l != []
    case JObj(m) => m != map[]
  }

  /** `d.get(key, default)`. */
  function Get(m: map<string, Json>, key: string, default: Json): (v: Json)
    ensures key in m ==> v == m[key]
    ensures key !in m ==> v == default
  {
    if key in m then m[key] else default
  }

  /** A string-valued field read into a `str` field of the record: a non-string is read as "". */
  function AsStr(v: Json): string {
    if v.JStr? then v.s else ""
  }

  /** An integer-valued field read into an `int` field of the record: a non-integer is read as 0. */
  function AsInt(v: Json): int {
    if v.JInt? then v.i else 0
  }

  /** Python's `int(v)`; `None` where Python raises `TypeError` or `ValueError`. */
  function PyInt(v: Json): (r: Option<int>)
    ensures v.JInt? ==> r == Some(v.i)
    ensures v.JNull? || v.JList? || v.JObj? ==> r == None
  {
    match v
    case JInt(i) => Some(i)
    case JBool(b) => Some(if b then 1 else 0)
    case JStr(s) => ParseInt(s)
    case _ => None
  }

  /** Python's `int(v)` with its exception: `ValueError` for a string that is not a number,
      `TypeError` for None, a list or a dict. */
  function IntCall(v: Json): (r: Result<int>)
    ensures r.Ok? <==> PyInt(v).Some?
    ensures r.Ok? ==> PyInt(v) == Some(r.value)
    ensures r.Raises? ==> (r.reason == "ValueError" <==> v.JStr?)
    ensures v.JNull? || v.JList? || v.JObj? ==> r == Raises("TypeError")
  {
    match PyInt(v)
    case Some(n) => Ok(n)
    case None => if v.JStr? then Raises("ValueError") else Raises("TypeError")
  }

  /** `f"{v}"` for the scalar values the crawler formats; lists and objects format as "". */
  function Format(v: Json): string {
    match v
    case JNull => "None"
    case JBool(b) => if b then "True" else "False"
    case JInt(i) => IntToString(i)
    case JStr(s) => s
    case _ => ""
  }

  /** A value in a request's query-parameter dict. */
  datatype Param = PStr(s: string) | PInt(i: int) | PNone

  type Params = map<string, Param>

  /** A configured credential: `None` or a string. */
  function OptParam(o: Option<string>): Param {
    match o
    case Some(s) => PStr(s)
    case None => PNone
  }

  /** Truthiness of a configured credential. */
  predicate Configured(o: Option<string>) {
    o.Some? && o.value != []
  }
}
