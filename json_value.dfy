/**
 * The values a translation bundle, a stored preference or a lookup can hold:
 * what `JSON.parse` produces, with JavaScript's truthiness and property access
 * (`v[key]`) on them. Numbers are integers here.
 */
module JsonValue {
  import opened Wrappers

  datatype Value =
    | Null
    | Bool(b: bool)
    | Num(n: int)
    | Str(s: string)
    | Arr(items: seq<Value>)
    | Obj(fields: map<string, Value>)

  /** JavaScript truthiness: `null`, `false`, `0` and `""` are falsy. */
  predicate Truthy(v: Value)
  {
    match v
    case Null => false
    case Bool(b) => b
    case Num(n) => n != 0
    case Str(s) => s != ""
    case Arr(_) => true
    case Obj(_) => true
  }

  /** `a || b` on values. */
  function Or(a: Value, b: Value): Value
  {
    if Truthy(a) then a else b
  }

  predicate IsDigit(c: char)
  {
    '0' <= c <= '9'
  }

  function DigitsValue(s: string): nat
    requires forall i :: 0 <= i < |s| ==> IsDigit(s[i])
    decreases |s|
  {
    if |s| == 0 then 0
    else
      assert IsDigit(s[|s| - 1]);
      DigitsValue(s[..|s| - 1]) * 10 + (s[|s| - 1] as int - '0' as int)
  }

  /** The index a property name denotes on an array or string: a canonical decimal numeral. */
  function ArrayIndex(key: string): Option<nat>
  {
    if |key| > 0 && (forall i :: 0 <= i < |key| ==> IsDigit(key[i])) && (key[0] != '0' || |key| == 1)
    then Some(DigitsValue(key))
    else None
  }

  /**
   * `v[key]` for the own properties of a value; `None` stands for `undefined`.
   * Objects have their fields, arrays and strings their indices and `length`.
   */
  function Property(v: Value, key: string): Option<Value>
  {
    match v
    case Obj(fields) => if key in fields then Some(fields[key]) else None
    case Arr(items) =>
      if key == "length" then Some(Num(|items|))
      else if ArrayIndex(key).Some? && ArrayIndex(key).value < |items| then Some(items[ArrayIndex(key).value])
      else None
    case Str(s) =>
      if key == "length" then Some(Num(|s|))
      else if ArrayIndex(key).Some? && ArrayIndex(key).value < |s| then Some(Str([s[ArrayIndex(key).value]]))
      else None
    case _ => None
  }
}
