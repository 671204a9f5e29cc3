/**
 * Values produced by Python's json module, and the few Python built-ins the
 * gas-station core applies to them (`in`, indexing, truthiness, `== n`, float()).
 * Each built-in yields None where Python would raise.
 */
module PyValues {
  import opened Wrappers

  type Byte = b: int | 0 <= b < 256
  type Bytes = seq<Byte>

  /** A decoded JSON value: None, bool, int, float, str, list or dict. */
  datatype Json =
    | JNull
    | JBool(b: bool)
    | JInt(i: int)
    | JFloat(f: real)
    | JStr(s: string)
    | JArr(items: seq<Json>)
    | JObj(fields: map<string, Json>)

  /** `key` occurs in `s` as a contiguous substring (Python's `key in s` on str). */
  predicate IsSubstring(key: string, s: string)
    decreases |s|
  {
    key <= s || (|s| > 0 && IsSubstring(key, s[1..]))
  }

  /**
   * Python's `key in v` for a str key: dict membership, list membership,
   * substring test on str; None (TypeError) for None, bool, int and float.
   */
  function Contains(v: Json, key: string): Option<bool>
  {
    match v
    case JObj(m) => Some(key in m)
    case JArr(xs) => Some(JStr(key) in xs)
    case JStr(s) => Some(IsSubstring(key, s))
    case _ => None
  }

  /** Python's `v[key]` for a str key: None on KeyError or TypeError. */
  function Index(v: Json, key: string): Option<Json>
  {
    match v
    case JObj(m) => if key in m then Some(m[key]) else None
    case _ => None
  }

  /** Python's `bool(v)`. */
  predicate Truthy(v: Json)
  {
    match v
    case JNull => false
    case JBool(b) => b
    case JInt(i) => i != 0
    case JFloat(f) => f != 0.0
    case JStr(s) => |s| > 0
    case JArr(xs) => |xs| > 0
    case JObj(m) => |m| > 0
  }

  /** Python's `v == n` for an int `n` (True == 1 and 1.0 == 1 hold in Python). */
  predicate EqualsInt(v: Json, n: int)
  {
    match v
    case JInt(i) => i == n
    case JFloat(f) => f == n as real
    case JBool(b) => (if b then 1 else 0) == n
    case _ => false
  }

  /**
   * Python's `float(v)`, None where it raises. Strings go to `parseStr`, which
   * stands for CPython's float parser (and yields None for "nan" and "inf",
   * which every comparison below rejects exactly as it rejects a non-number).
   */
  function ToFloat(v: Json, parseStr: string -> Option<real>): Option<real>
  {
    match v
    case JInt(i) => Some(i as real)
    case JFloat(f) => Some(f)
    case JBool(b) => Some(if b then 1.0 else 0.0)
    case JStr(s) => parseStr(s)
    case _ => None
  }
}
