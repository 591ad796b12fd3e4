/**
 * The slice of PHP's value semantics that the login handler and the income
 * quick search depend on: loosely typed values, PHP truthiness, the
 * `(string)` cast, array lookups with `??`, and decimal rendering of integers.
 */
module Php {

  datatype Option<+T> = None | Some(value: T)

  /**
   * A PHP value as it reaches this code from a request, a JS call, a cookie or
   * a stored record. Arrays are string-keyed; their iteration order is not
   * needed by any of the modelled code. Floats are not modelled.
   */
  datatype Value =
    | VNull
    | VBool(b: bool)
    | VInt(i: int)
    | VStr(s: string)
    | VArray(items: map<string, Value>)

  /** PHP's conversion to bool: null, false, 0, "", "0" and [] are falsy. */
  predicate Truthy(v: Value) {
    match v
    case VNull => false
    case VBool(b) => b
    case VInt(i) => i != 0
    case VStr(s) => s != "" && s != "0"
    case VArray(m) => |m| > 0
  }

  predicate IsDigit(c: char) {
    '0' <= c <= '9'
  }

  predicate AllDigits(s: string) {
    forall k :: 0 <= k < |s| ==> IsDigit(s[k])
  }

  function DigitChar(d: nat): (c: char)
    requires d < 10
    ensures IsDigit(c)
    ensures c as int - '0' as int == d
  {
    (48 + d) as char
  }

  /** Decimal digits of a natural number, most significant first, no leading zeros. */
  function NatToDecimal(n: nat): (s: string)
    ensures |s| > 0 && AllDigits(s)
    ensures s[0] == '0' ==> n == 0
  {
    if n < 10 then [DigitChar(n)] else NatToDecimal(n / 10) + [DigitChar(n % 10)]
  }

  /** PHP's rendering of an integer as text (`(string)$i`, `"..." . $i`). */
  function IntToString(n: int): string {
    if n < 0 then "-" + NatToDecimal(-n) else NatToDecimal(n)
  }

  /** PHP's `(string)` cast; an array becomes the literal text "Array". */
  function ToStr(v: Value): string {
    match v
    case VNull => ""
    case VBool(b) => if b then "1" else ""
    case VInt(i) => IntToString(i)
    case VStr(s) => s
    case VArray(_) => "Array"
  }

  /**
   * The text an internal function's `string` parameter receives in PHP's
   * coercive typing mode (no `strict_types`): scalars and null are converted
   * as by `(string)`, an array is refused with a `TypeError` (None).
   */
  function StringArg(v: Value): Option<string> {
    if v.VArray? then None else Some(ToStr(v))
  }

  /** `$v[key]` where the entry exists; None for a missing key or a non-array. */
  function Index(v: Value, key: string): Option<Value> {
    if v.VArray? && key in v.items then Some(v.items[key]) else None
  }

  /** `$v[k1][k2]`, None as soon as one step is missing. */
  function Dig(v: Value, k1: string, k2: string): Option<Value> {
    match Index(v, k1)
    case None => None
    case Some(w) => Index(w, k2)
  }

  /** `$expr ?? default`: the default applies to a missing entry and to null. */
  function Coalesce(o: Option<Value>, default: Value): (r: Value)
    ensures o.Some? && o.value != VNull ==> r == o.value
    ensures (o.None? || o.value == VNull) ==> r == default
  {
    if o.Some? && o.value != VNull then o.value else default
  }

  /** Every character of the decimal text of an integer is a digit or a leading minus sign. */
  lemma IntToStringChars(n: int)
    ensures |IntToString(n)| > 0
    ensures forall k :: 0 <= k < |IntToString(n)| ==>
              IsDigit(IntToString(n)[k]) || (k == 0 && IntToString(n)[k] == '-')
    ensures IntToString(n)[0] == '-' <==> n < 0
  {
    if n < 0 {
      var d := NatToDecimal(-n);
      assert IntToString(n) == "-" + d;
      forall k | 1 <= k < |IntToString(n)|
        ensures IsDigit(IntToString(n)[k])
      {
        assert IntToString(n)[k] == d[k - 1];
      }
    }
  }
}
