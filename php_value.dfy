/**
 * The PHP values `json_decode($json, true)` produces, and the three things
 * the ingest handler does with them: test them for truth (`!$x`), read a
 * key with `isset` / `??`, and turn them into a string for a `'s'` binding.
 */
module PhpValue {
  import opened Wrappers
  import opened PhpString

  /** A PHP array key: JSON object members give string keys, JSON lists int keys. */
  datatype Key = IntKey(i: int) | StrKey(s: string)

  /**
   * A PHP float, represented by the string PHP converts it to (`(string)$f`,
   * for example "7.1", "0", "-0", "1.0E-20"); its arithmetic is not modelled.
   */
  datatype Float = Float(repr: string)

  /** A decoded JSON document; a failed decoding is Null, as in PHP. */
  datatype Value =
    | Null
    | Bool(b: bool)
    | Int(i: int)
    | Double(f: Float)
    | Str(s: string)
    | Array(entries: map<Key, Value>)

  /** PHP's truth value: null, false, 0, 0.0, -0.0, "", "0" and the empty array are false. */
  function Truthy(v: Value): (b: bool)
    ensures !v.Double? && !v.Array? ==> (b <==> ToStr(v) != "" && ToStr(v) != "0")
  {
    match v
    case Null => false
    case Bool(b) => b
    case Int(i) => i != 0
    case Double(f) => f.repr != "0" && f.repr != "-0"
    case Str(s) => s != "" && s != "0"
    case Array(m) => |m| > 0
  }

  /** `$v[$key]` for a string key: present only when v is an array holding that key. */
  function Get(v: Value, key: string): (r: Option<Value>)
    ensures r.Some? <==> v.Array? && StrKey(key) in v.entries
    ensures r.Some? ==> r.value == v.entries[StrKey(key)]
  {
    if v.Array? && StrKey(key) in v.entries then Some(v.entries[StrKey(key)]) else None
  }

  /** `isset($v[$key])`: the key is there and its value is not null. */
  predicate IsSet(v: Value, key: string) {
    Get(v, key).Some? && Get(v, key).value != Null
  }

  /** `$v[$key] ?? $default`. */
  function Coalesce(v: Value, key: string, default: Value): (r: Value)
    ensures IsSet(v, key) ==> Get(v, key) == Some(r)
    ensures !IsSet(v, key) ==> r == default
  {
    if IsSet(v, key) then Get(v, key).value else default
  }

  /** PHP's conversion to string, as `.` and a `'s'` parameter binding apply it. */
  function ToStr(v: Value): (s: string)
    ensures v.Str? ==> s == v.s
    ensures v.Bool? ==> (s == "1" <==> v.b) && (s == "" <==> !v.b)
    ensures v.Int? && IntMin <= v.i <= IntMax ==> ToInt(s) == v.i
  {
    match v
    case Null => ""
    case Bool(b) => if b then "1" else ""
    case Int(i) => (if IntMin <= i <= IntMax then ToIntOfIntToString(i); IntToString(i) else IntToString(i))
    case Double(f) => f.repr
    case Str(s) => s
    case Array(_) => "Array"
  }
}
