/** Decoded JSON values and the few Python dictionary operations the core
    applies to them.  Python's `None` is `JNull`; integers and floats share
    `JNum` (the core never distinguishes them). */
module JsonData {

  datatype Json =
    | JNull
    | JBool(b: bool)
    | JNum(n: real)
    | JStr(s: string)
    | JArr(items: seq<Json>)
    | JObj(fields: map<string, Json>)

  /** `d.get(key, default)` on a Python dict. */
  function GetOr(fields: map<string, Json>, key: string, default: Json): (r: Json)
    ensures key in fields ==> r == fields[key]
    ensures key !in fields ==> r == default
  {
    if key in fields then fields[key] else default
  }

  /** Python truthiness of a decoded JSON value. */
  predicate Truthy(j: Json) {
    match j
    case JNull => false
    case JBool(b) => b
    case JNum(n) => n != 0.0
    case JStr(s) => |s| > 0
    case JArr(xs) => |xs| > 0
    case JObj(m) => |m| > 0
  }

  /** Lists and dicts cannot be hashed: putting one in a Python set, or
      testing it for membership in one, raises TypeError. */
  predicate Hashable(j: Json) {
    !j.JArr? && !j.JObj?
  }

  /** The JSON value of a Python `len(...)`. */
  function Count(n: nat): (r: Json)
    ensures r.JNum? && r.n == n as real
  {
    JNum(n as real)
  }

  const EmptyObject: Json := JObj(map[])
}
