/**
 * A small JSON document model and the conversions Newtonsoft.Json's
 * `JToken.Value<T>(key)` performs when the entity decoders read a member.
 * Parsing JSON text is not modelled: a response carries the document the
 * parser would have produced, or nothing when the text is not JSON.
 */
module JsonValues {
  import opened Opt
  import Text

  /** JSON numbers are integers here; an object is a map because `JObject` keeps one value per name. */
  datatype Json =
    | JNull
    | JBool(b: bool)
    | JInt(n: int)
    | JStr(s: string)
    | JArr(items: seq<Json>)
    | JObj(members: map<string, Json>)

  type JObject = map<string, Json>

  newtype int32 = x: int | -0x8000_0000 <= x < 0x8000_0000
  newtype int64 = x: int | -0x8000_0000_0000_0000 <= x < 0x8000_0000_0000_0000

  /** What reading a reference-typed member (`JObject`, `JArray`) yields: null, the value, or an `InvalidCastException`. */
  datatype Conv<+T> = Null | Value(v: T) | CastError

  /**
   * `Convert.ChangeType` of a JSON token to an integer type holding [lo, hi):
   * integers in range pass, booleans become 1 or 0, numeric strings are parsed,
   * and every other token (null, array, object, out-of-range number) throws.
   */
  function TokenToInteger(j: Json, lo: int, hi: int): (r: Option<int>)
    requires lo <= 0 && 1 < hi
    ensures r.Some? ==> lo <= r.value < hi
    ensures j.JNull? || j.JArr? || j.JObj? ==> r.None?
    ensures j.JInt? ==> (r.Some? <==> lo <= j.n < hi) && (r.Some? ==> r.value == j.n)
  {
    match j
    case JInt(n) => if lo <= n < hi then Some(n) else None
    case JBool(b) => Some(if b then 1 else 0)
    case JStr(s) =>
      (match Text.ParseInteger(s)
       case Some(n) => if lo <= n < hi then Some(n) else None
       case None => None)
    case _ => None
  }

  /** `o.Value<int>(key)`: a missing member reads as 0; a member that cannot be converted throws (None). */
  function ValueInt32(o: JObject, key: string): (r: Option<int32>)
    ensures key !in o ==> r == Some(0)
    ensures key in o ==> (r.Some? <==> TokenToInteger(o[key], -0x8000_0000, 0x8000_0000).Some?)
    ensures key in o && r.Some? ==> r.value as int == TokenToInteger(o[key], -0x8000_0000, 0x8000_0000).value
  {
    if key !in o then Some(0)
    else match TokenToInteger(o[key], -0x8000_0000, 0x8000_0000)
      case Some(n) => Some(n as int32)
      case None => None
  }

  /** `o.Value<long>(key)`: as `ValueInt32`, over the 64-bit range. */
  function ValueInt64(o: JObject, key: string): (r: Option<int64>)
    ensures key !in o ==> r == Some(0)
    ensures key in o ==> (r.Some? <==> TokenToInteger(o[key], -0x8000_0000_0000_0000, 0x8000_0000_0000_0000).Some?)
    ensures key in o && r.Some? ==> r.value as int == TokenToInteger(o[key], -0x8000_0000_0000_0000, 0x8000_0000_0000_0000).value
  {
    if key !in o then Some(0)
    else match TokenToInteger(o[key], -0x8000_0000_0000_0000, 0x8000_0000_0000_0000)
      case Some(n) => Some(n as int64)
      case None => None
  }

  /** `token.Value<JObject>()`: null stays null, an object is itself, any other token is a cast error. */
  function TokenAsObject(j: Json): Conv<JObject> {
    match j
    case JNull => Null
    case JObj(m) => Value(m)
    case _ => CastError
  }

  /** `o.Value<JObject>(key)`: a missing member is null. */
  function ValueObject(o: JObject, key: string): (r: Conv<JObject>)
    ensures key !in o ==> r.Null?
    ensures r.Value? <==> key in o && o[key].JObj?
    ensures r.Value? ==> r.v == o[key].members
  {
    if key !in o then Null else TokenAsObject(o[key])
  }

  /** `o.Value<JArray>(key)`: a missing or null member is null, an array is itself, anything else a cast error. */
  function ValueArray(o: JObject, key: string): (r: Conv<seq<Json>>)
    ensures key !in o ==> r.Null?
    ensures r.Value? <==> key in o && o[key].JArr?
    ensures r.Value? ==> r.v == o[key].items
  {
    if key !in o then Null
    else match o[key]
      case JNull => Null
      case JArr(items) => Value(items)
      case _ => CastError
  }

  /** A string member, with the empty string for a missing or non-string member. */
  function StringMember(o: JObject, key: string): (r: string)
    ensures key in o && o[key].JStr? ==> r == o[key].s
  {
    if key in o && o[key].JStr? then o[key].s else ""
  }
}
