/**
 * The Python values that `json.loads` produces, and the two Python built-ins
 * the request handlers apply to them: truthiness (`if not x`) and `int(x)`.
 * The JSON parser itself is not modelled: it is a `Decoder` parameter.
 */
module Values {
  import opened Wrappers

  /** A Python float. `json.loads` also accepts `Infinity`, `-Infinity` and `NaN`. */
  datatype Float = Finite(x: real) | PosInf | NegInf | NaN

  datatype Json =
    | JNull
    | JBool(b: bool)
    | JInt(i: int)
    | JFloat(f: Float)
    | JStr(s: string)
    | JArray(items: seq<Json>)
    | JObject(fields: map<string, Json>)

  /** `json.loads`: the parsed value, or None where it raises. */
  type Decoder = string -> Option<Json>

  /** `json.loads(s)` returns without raising. */
  predicate Parses(decode: Decoder, s: string)
  {
    decode(s).Some?
  }

  /** Python's truth value: `None`, `False`, zero, and empty strings, lists and dicts are false. */
  predicate Truthy(v: Json)
  {
    match v
    case JNull => false
    case JBool(b) => b
    case JInt(i) => i != 0
    case JFloat(f) => !(f.Finite? && f.x == 0.0)
    case JStr(s) => s != []
    case JArray(items) => items != []
    case JObject(fields) => fields != map[]
  }

  /** What `int(v)` does: a value, ValueError/TypeError (Rejected), or OverflowError. */
  datatype IntConversion = Converted(n: int) | Rejected | Overflowed

  /** `int(x)` on a finite float truncates toward zero. */
  function TruncateTowardZero(x: real): (n: int)
    ensures 0.0 <= x ==> 0 <= n && n as real <= x < n as real + 1.0
    ensures x < 0.0 ==> n <= 0 && n as real - 1.0 < x <= n as real
  {
    if 0.0 <= x then x.Floor else -((-x).Floor)
  }

  /**
   * Python's `int(v)`. A string goes through `strToInt` (Python's own rules for
   * integer literals are not modelled); `None`, lists and dicts raise TypeError,
   * NaN raises ValueError, and an infinite float raises OverflowError.
   */
  function ToInt(v: Json, strToInt: string -> Option<int>): (r: IntConversion)
    ensures r.Overflowed? <==> v.JFloat? && (v.f.PosInf? || v.f.NegInf?)
    ensures v.JInt? ==> r == Converted(v.i)
    ensures v.JBool? ==> r == Converted(if v.b then 1 else 0)
    ensures (v.JNull? || v.JArray? || v.JObject?) ==> r.Rejected?
    ensures v.JFloat? && v.f.Finite? ==> r == Converted(TruncateTowardZero(v.f.x))
    ensures v == JFloat(NaN) ==> r.Rejected?
    ensures v.JStr? ==> (r.Converted? <==> strToInt(v.s).Some?) && (r.Converted? ==> r.n == strToInt(v.s).value)
  {
    match v
    case JNull => Rejected
    case JBool(b) => Converted(if b then 1 else 0)
    case JInt(i) => Converted(i)
    case JFloat(f) =>
      (match f
       case Finite(x) => Converted(TruncateTowardZero(x))
       case PosInf => Overflowed
       case NegInf => Overflowed
       case NaN => Rejected)
    case JStr(s) =>
      (match strToInt(s)
       case Some(n) => Converted(n)
       case None => Rejected)
    case JArray(_) => Rejected
    case JObject(_) => Rejected
  }
}
