/** The slice of JavaScript's value semantics the model relies on: plain data
    values, truthiness (`if (x)`, `x ? a : b`), nullish coalescing (`x ?? d`)
    and the string conversion `String(n)` of a non-negative integer below
    10^21, where JavaScript still prints plain decimal digits. */
module Js {
  import opened Wrappers

  /** A plain JavaScript data value. Objects are ordered association lists
      whose order is the `Object.keys` order. */
  datatype Value =
    | Null
    | Bool(b: bool)
    | Num(n: int)
    | Str(s: string)
    | Arr(items: seq<Value>)
    | Obj(fields: seq<(string, Value)>)

  /** The object literal `{}`. */
  const EmptyObject: Value := Obj([])

  /** JavaScript truthiness of a possibly absent value: `undefined`, `null`,
      `false`, `0` and `""` are falsy; every array and object is truthy. */
  predicate Truthy(v: Option<Value>) {
    match v
    case None => false
    case Some(Null) => false
    case Some(Bool(b)) => b
    case Some(Num(n)) => n != 0
    case Some(Str(s)) => s != ""
    case Some(Arr(_)) => true
    case Some(Obj(_)) => true
  }

  /** `v ?? d`: the default replaces `undefined` and `null` only. */
  function Coalesce(v: Option<Value>, d: Value): (r: Value)
    ensures v.None? || v == Some(Null) ==> r == d
    ensures v.Some? && v.value != Null ==> r == v.value
  {
    match v
    case None => d
    case Some(Null) => d
    case Some(x) => x
  }

  predicate IsDigit(c: char) {
    '0' <= c <= '9'
  }

  /** The decimal digit for `d`. */
  function Digit(d: nat): (c: char)
    requires d < 10
    ensures IsDigit(c)
    ensures c as int - '0' as int == d
  {
    "0123456789"[d]
  }

  /** The numeric value of a string of decimal digits, most significant first. */
  function DigitsValue(s: string): int
    requires forall i :: 0 <= i < |s| ==> IsDigit(s[i])
  {
    if |s| == 0 then 0
    else 10 * DigitsValue(s[..|s| - 1]) + (s[|s| - 1] as int - '0' as int)
  }

  /** The least integer JavaScript prints in exponent form (`1e+21`). */
  const ExponentFormFrom: nat := 1_000_000_000_000_000_000_000

  /** `String(n)` for a non-negative integer below 10^21: its decimal digits,
      without leading zeros. From 10^21 up JavaScript prints an exponent
      form, which this function does not model. */
  function NatToString(n: nat): (s: string)
    requires n < ExponentFormFrom
    ensures |s| >= 1
    ensures forall i :: 0 <= i < |s| ==> IsDigit(s[i])
    ensures DigitsValue(s) == n
    ensures |s| > 1 ==> s[0] != '0'
    ensures '.' !in s
  {
    if n < 10 then [Digit(n)]
    else
      var s := NatToString(n / 10) + [Digit(n % 10)];
      assert s[..|s| - 1] == NatToString(n / 10);
      s
  }
}
