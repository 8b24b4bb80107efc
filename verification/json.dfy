/** Parsed JSON values and the handful of JavaScript operations the compiler
    wrapper applies to them: `typeof`, truthiness, property reads (which throw
    on `null`), `Object.keys` and indexed reads up to `.length`. */
module JsonValues {
  import opened Results
  import opened OrderedMaps

  /** Objects keep their keys in `Object.keys` order. */
  datatype Json =
    | JNull
    | JBool(b: bool)
    | JNum(n: real)
    | JStr(s: string)
    | JArr(items: seq<Json>)
    | JObj(fields: seq<(string, Json)>)

  /** `typeof v === 'object'`, which holds for `null` and arrays too. */
  predicate IsObjectType(v: Json)
  {
    v.JNull? || v.JArr? || v.JObj?
  }

  /** JavaScript truthiness (`if (v)`). */
  predicate Truthy(v: Json)
  {
    match v
    case JNull => false
    case JBool(b) => b
    case JNum(n) => n != 0.0
    case JStr(s) => |s| > 0
    case _ => true
  }

  /** The own property `key` of `v`; `None` is `undefined`. Objects carry
      their fields; strings and arrays carry `length` (their index properties
      are read through `Elements` and `Entries`); booleans and numbers carry
      none of the names the wrapper reads. */
  function Get(v: Json, key: string): (r: Option<Json>)
    ensures v.JStr? && key == "length" ==> r == Some(JNum(|v.s| as real))
    ensures v.JArr? && key == "length" ==> r == Some(JNum(|v.items| as real))
    ensures r.Some? ==> v.JObj? || v.JStr? || v.JArr?
  {
    match v
    case JObj(fields) => Find(fields, key)
    case JStr(s) => if key == "length" then Some(JNum(|s| as real)) else None
    case JArr(items) => if key == "length" then Some(JNum(|items| as real)) else None
    case _ => None
  }

  /** `v.key` as the runtime evaluates it: a TypeError on `null`. */
  function Prop(v: Json, key: string): (r: Result<Option<Json>>)
    ensures r.Err? <==> v.JNull?
    ensures r.Err? ==> r.error == TypeError
    ensures r.Ok? ==> r.value == Get(v, key)
  {
    if v.JNull? then Err(TypeError) else Ok(Get(v, key))
  }

  function Digit(d: nat): char
    requires d < 10
  {
    "0123456789"[d]
  }

  /** The decimal spelling of an array or string index, as `Object.keys` gives it. */
  function Decimal(n: nat): string
  {
    if n < 10 then [Digit(n)] else Decimal(n / 10) + [Digit(n % 10)]
  }

  /** `Object.keys(v)` paired with the values read under those keys. */
  function Entries(v: Json): (r: Result<seq<(string, Json)>>)
    ensures r.Err? <==> v.JNull?
    ensures v.JObj? ==> r == Ok(v.fields)
  {
    match v
    case JNull => Err(TypeError)
    case JBool(_) => Ok([])
    case JNum(_) => Ok([])
    case JStr(s) => Ok(seq(|s|, i requires 0 <= i < |s| => (Decimal(i), JStr([s[i]]))))
    case JArr(items) => Ok(seq(|items|, i requires 0 <= i < |items| => (Decimal(i), items[i])))
    case JObj(fields) => Ok(fields)
  }

  /** `v[0], …, v[v.length - 1]`: the items of an array, the one-character
      strings of a string; other values have no numeric `length`. */
  function Elements(v: Json): (r: Result<seq<Json>>)
    ensures r.Err? <==> v.JNull?
    ensures v.JArr? ==> r == Ok(v.items)
  {
    match v
    case JNull => Err(TypeError)
    case JStr(s) => Ok(seq(|s|, i requires 0 <= i < |s| => JStr([s[i]])))
    case JArr(items) => Ok(items)
    case _ => Ok([])
  }
}
