/** Free-form metadata ("info") as the curator and the import see it after JSON
    decoding: nested dicts, lists, strings, numbers, booleans and `None`. */
module JsonValue {
  import opened Base

  datatype Json =
    | JNull
    | JBool(b: bool)
    | JNum(n: real)
    | JStr(s: string)
    | JArr(items: seq<Json>)
    | JObj(fields: map<string, Json>)

  /** `d.get(k)`: the value stored under `k`, or `None` when `k` is absent. */
  function Get(m: map<string, Json>, k: string): (r: Json)
    ensures k in m ==> r == m[k]
    ensures k !in m ==> r == JNull
  {
    if k in m then m[k] else JNull
  }

  /** `d.get(k, default)`. */
  function GetOr(m: map<string, Json>, k: string, default: Json): (r: Json)
    ensures k in m ==> r == m[k]
    ensures k !in m ==> r == default
  {
    if k in m then m[k] else default
  }

  /** A value on which `.get` may be called: only a dict. */
  function AsMapping(j: Json): (r: Result<map<string, Json>>)
    ensures r.Success? <==> j.JObj?
    ensures r.Success? ==> j == JObj(r.value)
  {
    if j.JObj? then Success(j.fields) else Failure(NotAMapping)
  }

  /** Python truthiness: `None`, `False`, zero and empty containers are falsy. */
  predicate Truthy(j: Json) {
    match j
    case JNull => false
    case JBool(b) => b
    case JNum(n) => n != 0.0
    case JStr(s) => s != ""
    case JArr(xs) => xs != []
    case JObj(m) => m != map[]
  }

  /** The elements a `for` loop visits, when every element is a value whose
      `.get` the loop body calls next. A list yields its items. An empty dict
      or string yields nothing. A non-empty dict or string yields strings, on
      which the body's `.get` fails. Anything else is not iterable. */
  function IterateRecords(j: Json): (r: Result<seq<Json>>)
    ensures r.Success? <==> j.JArr? || j == JObj(map[]) || j == JStr("")
    ensures j.JArr? ==> r == Success(j.items)
    ensures r.Success? && !j.JArr? ==> r.value == []
  {
    match j
    case JArr(xs) => Success(xs)
    case JObj(m) => if m == map[] then Success([]) else Failure(NotAMapping)
    case JStr(s) => if s == "" then Success([]) else Failure(NotAMapping)
    case _ => Failure(NotIterable)
  }

  /** An optional label as a table cell: `None` becomes `JNull`. */
  function Cell(o: Option<string>): (r: Json)
    ensures o.None? <==> r == JNull
    ensures o.Some? ==> r == JStr(o.value)
  {
    match o
    case Some(s) => JStr(s)
    case None => JNull
  }
}
