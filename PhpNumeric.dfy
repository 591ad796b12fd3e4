/**
 * PHP 8's `is_numeric` and the `(int)` cast it guards, for the value kinds in
 * `Php.Value`. A numeric string is, after optional leading and trailing
 * whitespace (space, \t, \n, \v, \f, \r), an optional sign followed by digits
 * with an optional decimal point and an optional exponent:
 * `[+-]? (DIGITS ('.' DIGITS?)? | '.' DIGITS) ([eE] [+-]? DIGITS)?`.
 * The cast truncates the denoted number toward zero.
 */
module PhpNumeric {
  import opened Php

  predicate IsWhitespace(c: char) {
    c == ' ' || 9 <= c as int <= 13
  }

  function TrimLeft(s: string): (r: string)
    ensures |r| <= |s| && r == s[|s| - |r|..]
    ensures |r| > 0 ==> !IsWhitespace(r[0])
  {
    if |s| > 0 && IsWhitespace(s[0]) then TrimLeft(s[1..]) else s
  }

  function TrimRight(s: string): (r: string)
    ensures |r| <= |s| && r == s[..|r|]
    ensures |r| > 0 ==> !IsWhitespace(r[|r| - 1])
  {
    if |s| > 0 && IsWhitespace(s[|s| - 1]) then TrimRight(s[..|s| - 1]) else s
  }

  /** Length of the run of digits at the start of `s`. */
  function SpanDigits(s: string): (n: nat)
    ensures n <= |s|
    ensures AllDigits(s[..n])
    ensures n < |s| ==> !IsDigit(s[n])
  {
    if |s| > 0 && IsDigit(s[0]) then
      var n := 1 + SpanDigits(s[1..]);
      assert s[..n] == [s[0]] + s[1..][..n - 1];
      n
    else 0
  }

  /** The number a digit string denotes, most significant digit first. */
  function DigitsValue(ds: string): nat
    requires AllDigits(ds)
  {
    if ds == [] then 0 else DigitsValue(ds[..|ds| - 1]) * 10 + (ds[|ds| - 1] as int - '0' as int)
  }


  /** `m` followed by `e` zero digits, that is `m * 10^e`. */
  function Shifted(m: nat, e: nat): nat {
    if e == 0 then m else 10 * Shifted(m, e - 1)
  }

  /** `m` with its last `e` digits dropped, that is `m / 10^e` rounded toward zero. */
  function Unshifted(m: nat, e: nat): nat {
    if e == 0 then m else Unshifted(m / 10, e - 1)
  }

  /** The parts of a numeric string: sign, digits before and after the point, exponent. */
  datatype Numeric = Numeric(negative: bool, whole: string, fraction: string, exponent: int)

  predicate WellFormed(n: Numeric) {
    AllDigits(n.whole) && AllDigits(n.fraction) && |n.whole| + |n.fraction| > 0
  }

  /** Parses a PHP numeric string; None when PHP does not consider the string numeric. */
  function ParseNumeric(s: string): (r: Option<Numeric>)
    ensures r.Some? ==> WellFormed(r.value)
  {
    var t := TrimRight(TrimLeft(s));
    if |t| > 0 && (t[0] == '+' || t[0] == '-') then ParseUnsigned(t[0] == '-', t[1..])
    else ParseUnsigned(false, t)
  }

  /** The text after the optional sign: a mantissa, then an optional exponent, then nothing. */
  function ParseUnsigned(negative: bool, u: string): (r: Option<Numeric>)
    ensures r.Some? ==> WellFormed(r.value)
  {
    var w := SpanDigits(u);
    var afterWhole := u[w..];
    var hasDot := |afterWhole| > 0 && afterWhole[0] == '.';
    var afterDot := if hasDot then afterWhole[1..] else afterWhole;
    var f := if hasDot then SpanDigits(afterDot) else 0;
    if w + f == 0 then None
    else
      match ParseExponent(afterDot[f..])
      case None => None
      case Some(e) => Some(Numeric(negative, u[..w], afterDot[..f], e))
  }

  /** What may follow the mantissa: nothing (exponent 0) or `[eE][+-]?DIGITS` and nothing more. */
  function ParseExponent(rest: string): Option<int> {
    if rest == [] then Some(0)
    else if rest[0] == 'e' || rest[0] == 'E' then
      var expNegative := |rest| > 1 && rest[1] == '-';
      var v := if |rest| > 1 && (rest[1] == '+' || rest[1] == '-') then rest[2..] else rest[1..];
      var e := SpanDigits(v);
      if e == 0 || e != |v| then None
      else
        assert v[..e] == v;
        var magnitude: int := DigitsValue(v);
        Some(if expNegative then -magnitude else magnitude)
    else None
  }

  /** `is_numeric($v)`: integers always, strings when they parse; null, booleans and arrays never. */
  predicate IsNumeric(v: Value) {
    match v
    case VInt(_) => true
    case VStr(s) => ParseNumeric(s).Some?
    case _ => false
  }

  /** The number a well-formed numeric string denotes, truncated toward zero. */
  function Truncate(n: Numeric): (r: int)
    requires WellFormed(n)
    ensures n.negative ==> r <= 0
    ensures !n.negative ==> r >= 0
  {
    var mantissa := DigitsValue(n.whole + n.fraction);
    var shift := n.exponent - |n.fraction|;
    var magnitude: nat := if shift >= 0 then Shifted(mantissa, shift) else Unshifted(mantissa, -shift);
    if n.negative then -(magnitude as int) else magnitude
  }

  /** `(int)$v` on a value that `is_numeric` accepts. */
  function IntCast(v: Value): (r: int)
    requires IsNumeric(v)
    ensures v.VStr? && ParseNumeric(v.s).value.negative ==> r <= 0
    ensures v.VStr? && !ParseNumeric(v.s).value.negative ==> r >= 0
  {
    match v
    case VInt(i) => i
    case VStr(s) => Truncate(ParseNumeric(s).value)
  }

  lemma {:induction false} SpanAllDigits(s: string)
    requires AllDigits(s)
    ensures SpanDigits(s) == |s|
  {
    if |s| > 0 {
      SpanAllDigits(s[1..]);
    }
  }

  lemma {:induction false} DigitsValueOfDecimal(n: nat)
    ensures DigitsValue(NatToDecimal(n)) == n
  {
    if n >= 10 {
      var d := NatToDecimal(n);
      DigitsValueOfDecimal(n / 10);
      assert d[..|d| - 1] == NatToDecimal(n / 10);
    }
  }

  lemma UnsignedDecimal(negative: bool, d: string, n: nat)
    requires d == NatToDecimal(n)
    ensures ParseUnsigned(negative, d) == Some(Numeric(negative, d, "", 0))
    ensures DigitsValue(d) == n
  {
    SpanAllDigits(d);
    DigitsValueOfDecimal(n);
    assert d[..|d|] == d;
    assert d[|d|..] == [];
  }

  /** Leading whitespace changes neither whether a string is numeric nor the integer it casts to. */
  lemma LeadingWhitespaceIgnored(c: char, s: string)
    requires IsWhitespace(c)
    ensures IsNumeric(VStr([c] + s)) <==> IsNumeric(VStr(s))
    ensures IsNumeric(VStr(s)) ==> IntCast(VStr([c] + s)) == IntCast(VStr(s))
  {
    assert ([c] + s)[1..] == s;
    assert TrimLeft([c] + s) == TrimLeft(s);
    SameParse([c] + s, s);
  }

  /** Trailing whitespace changes neither whether a string is numeric nor the integer it casts to. */
  lemma TrailingWhitespaceIgnored(s: string, c: char)
    requires IsWhitespace(c)
    ensures IsNumeric(VStr(s + [c])) <==> IsNumeric(VStr(s))
    ensures IsNumeric(VStr(s)) ==> IntCast(VStr(s + [c])) == IntCast(VStr(s))
  {
    TrimLeftAppend(s, c);
    var u := TrimLeft(s);
    if u != [] {
      assert (u + [c])[..|u|] == u;
      assert TrimRight(u + [c]) == TrimRight(u);
    }
    SameParse(s + [c], s);
  }

  /** Two strings with the same trimmed text parse alike. */
  lemma SameParse(a: string, b: string)
    requires TrimRight(TrimLeft(a)) == TrimRight(TrimLeft(b))
    ensures ParseNumeric(a) == ParseNumeric(b)
    ensures IsNumeric(VStr(a)) <==> IsNumeric(VStr(b))
    ensures IsNumeric(VStr(b)) ==> IntCast(VStr(a)) == IntCast(VStr(b))
  {
  }

  /** Appending whitespace after the leading whitespace has been trimmed. */
  lemma {:induction false} TrimLeftAppend(s: string, c: char)
    requires IsWhitespace(c)
    ensures TrimLeft(s + [c]) == if TrimLeft(s) == [] then [] else TrimLeft(s) + [c]
  {
    if s == [] {
      assert [c][1..] == [];
    } else if IsWhitespace(s[0]) {
      assert (s + [c])[1..] == s[1..] + [c];
      TrimLeftAppend(s[1..], c);
    }
  }

  /**
   * `(int)` drops the fraction: a string of digits, a point and digits is
   * numeric and casts to the value of the digits before the point.
   */
  lemma FractionDropped(w: string, f: string)
    requires AllDigits(w) && |w| > 0 && AllDigits(f)
    ensures IsNumeric(VStr(w + "." + f))
    ensures IntCast(VStr(w + "." + f)) == DigitsValue(w)
  {
    ParseFraction(w, f);
    TruncateFraction(w, f);
  }

  lemma ParseFraction(w: string, f: string)
    requires AllDigits(w) && |w| > 0 && AllDigits(f)
    ensures ParseNumeric(w + "." + f) == Some(Numeric(false, w, f, 0))
  {
    var s := w + "." + f;
    FractionEnds(w, f);
    assert !IsWhitespace(s[0]) && !IsWhitespace(s[|s| - 1]) && !(s[0] == '+' || s[0] == '-');
    NothingToTrim(s);
    ParseFractionUnsigned(w, f);
  }

  /** Both ends of `w + "." + f` are digits or the point. */
  lemma FractionEnds(w: string, f: string)
    requires AllDigits(w) && |w| > 0 && AllDigits(f)
    ensures var s := w + "." + f;
      |s| > 0 && IsDigit(s[0]) && (IsDigit(s[|s| - 1]) || s[|s| - 1] == '.')
  {
    var s := w + "." + f;
    assert s[0] == w[0];
    if f == [] {
      assert s[|s| - 1] == '.';
    } else {
      assert s[|s| - 1] == f[|f| - 1];
    }
  }

  /** A string with no whitespace at either end is its own trimmed text. */
  lemma NothingToTrim(s: string)
    requires |s| > 0 && !IsWhitespace(s[0]) && !IsWhitespace(s[|s| - 1])
    ensures TrimRight(TrimLeft(s)) == s
    ensures !(s[0] == '+' || s[0] == '-') ==> ParseNumeric(s) == ParseUnsigned(false, s)
  {
    assert TrimLeft(s) == s;
  }

  lemma ParseFractionUnsigned(w: string, f: string)
    requires AllDigits(w) && |w| > 0 && AllDigits(f)
    ensures ParseUnsigned(false, w + "." + f) == Some(Numeric(false, w, f, 0))
  {
    var s := w + "." + f;
    SpanPrefix(w, "." + f);
    assert s == w + ("." + f);
    assert s[|w|..] == "." + f;
    assert ("." + f)[1..] == f;
    SpanAllDigits(f);
    assert f[..|f|] == f && f[|f|..] == [];
    assert s[..|w|] == w;
  }

  lemma TruncateFraction(w: string, f: string)
    requires AllDigits(w) && |w| > 0 && AllDigits(f)
    ensures Truncate(Numeric(false, w, f, 0)) == DigitsValue(w)
  {
    DropDigits(w, f);
  }

  /** The digit run at the start of `w + rest` is `w` when `rest` starts with a non-digit. */
  lemma {:induction false} SpanPrefix(w: string, rest: string)
    requires AllDigits(w) && |rest| > 0 && !IsDigit(rest[0])
    ensures SpanDigits(w + rest) == |w|
  {
    if w != [] {
      assert (w + rest)[1..] == w[1..] + rest;
      SpanPrefix(w[1..], rest);
    }
  }

  /** Dropping the digits of `f` from the value of `w + f` leaves the value of `w`. */
  lemma {:induction false} DropDigits(w: string, f: string)
    requires AllDigits(w) && AllDigits(f)
    ensures AllDigits(w + f)
    ensures Unshifted(DigitsValue(w + f), |f|) == DigitsValue(w)
  {
    assert forall k :: 0 <= k < |w + f| ==> (w + f)[k] == if k < |w| then w[k] else f[k - |w|];
    if f == [] {
      assert w + f == w;
    } else {
      var init := f[..|f| - 1];
      assert (w + f)[..|w + f| - 1] == w + init;
      DropDigits(w, init);
      assert DigitsValue(w + f) / 10 == DigitsValue(w + init);
    }
  }

  /**
   * Round trip: the decimal text PHP produces for an integer is numeric, and
   * casting it back with `(int)` gives the integer.
   */
  lemma {:induction false} IntToStringRoundTrip(n: int)
    ensures IsNumeric(VStr(IntToString(n)))
    ensures IntCast(VStr(IntToString(n))) == n
  {
    var d := NatToDecimal(if n < 0 then -n else n);
    var s := IntToString(n);
    assert TrimLeft(s) == s;
    assert TrimRight(s) == s;
    UnsignedDecimal(n < 0, d, if n < 0 then -n else n);
    if n < 0 {
      assert s[1..] == d;
      assert ParseNumeric(s) == ParseUnsigned(true, d);
    } else {
      assert ParseNumeric(s) == ParseUnsigned(false, d);
    }
    TruncateWhole(n < 0, d);
  }

  /** A numeric string without fraction and exponent truncates to its signed digit value. */
  lemma TruncateWhole(negative: bool, d: string)
    requires AllDigits(d) && |d| > 0
    ensures Truncate(Numeric(negative, d, "", 0)) == if negative then -(DigitsValue(d) as int) else DigitsValue(d)
  {
    assert d + "" == d;
  }
}
