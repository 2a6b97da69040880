/**
 * `parseLimit`: turn the raw `limit` query parameter into a page size. The
 * configured default and maximum are parameters of the model. JavaScript
 * numbers are exact reals here plus NaN; infinities are not modelled.
 */
module RequestParsers {

  /** A JavaScript number: a finite value or NaN. */
  datatype Number = Finite(value: real) | NaN

  /** What the query string may hold: a string, a number, or anything else. */
  datatype LimitParam = Text(s: string) | Numeric(n: Number) | Other

  predicate IsDigit(c: char) {
    '0' <= c <= '9'
  }

  /** The whitespace `parseInt` skips before the number (ASCII part). */
  predicate IsSpace(c: char) {
    c == ' ' || c == '\t' || c == '\n' || c == '\r' || c == '\U{B}' || c == '\U{C}'
  }

  function SkipSpace(s: string): (r: string)
    ensures |r| <= |s| && r == s[|s| - |r|..]
    ensures r != [] ==> !IsSpace(r[0])
  {
    if s != [] && IsSpace(s[0]) then SkipSpace(s[1..]) else s
  }

  /** The length of the run of decimal digits that starts `s`. */
  function DigitRun(s: string): (n: nat)
    ensures n <= |s|
    ensures forall i :: 0 <= i < n ==> IsDigit(s[i])
    ensures n < |s| ==> !IsDigit(s[n])
  {
    if s != [] && IsDigit(s[0]) then 1 + DigitRun(s[1..]) else 0
  }

  function DigitValue(c: char): nat
    requires IsDigit(c)
  {
    c as int - '0' as int
  }

  /** The value of a string of decimal digits, most significant first. */
  function DigitsValue(s: string): nat
    requires forall i :: 0 <= i < |s| ==> IsDigit(s[i])
  {
    if s == [] then 0 else 10 * DigitsValue(s[..|s| - 1]) + DigitValue(s[|s| - 1])
  }

  /**
   * `parseInt(s, 10)`: skip leading whitespace, take an optional sign, then
   * the longest run of digits; anything after the run is ignored, and no
   * digit at all gives NaN.
   */
  function ParseInt(s: string): Number {
    var t := SkipSpace(s);
    var negative := t != [] && t[0] == '-';
    var body := if t != [] && (t[0] == '-' || t[0] == '+') then t[1..] else t;
    var n := DigitRun(body);
    if n == 0 then NaN
    else
      var v := DigitsValue(body[..n]) as real;
      Finite(if negative then -v else v)
  }

  /**
   * The second half of `parseLimit`: NaN or a value that is not positive
   * gives the default, any other value is capped at the maximum.
   */
  function ClampLimit(parsed: Number, defaultLimit: int, maxLimit: int): (r: real)
    ensures parsed.NaN? ==> r == defaultLimit as real
    ensures parsed.Finite? && parsed.value <= 0.0 ==> r == defaultLimit as real
    ensures parsed.Finite? && parsed.value > 0.0 ==>
      && r <= maxLimit as real && r <= parsed.value
      && (r == parsed.value || r == maxLimit as real)
  {
    match parsed
    case NaN => defaultLimit as real
    case Finite(v) =>
      if v <= 0.0 then defaultLimit as real
      else if v < maxLimit as real then v else maxLimit as real
  }

  /**
   * `parseLimit`: a string is read with `parseInt`, a number is taken as it
   * is, anything else counts as NaN, and the result is clamped.
   */
  function ParseLimit(param: LimitParam, defaultLimit: int, maxLimit: int): (r: real)
    ensures param.Other? ==> r == defaultLimit as real
    ensures param.Numeric? ==> r == ClampLimit(param.n, defaultLimit, maxLimit)
    ensures param.Text? ==> r == ClampLimit(ParseInt(param.s), defaultLimit, maxLimit)
    ensures r == defaultLimit as real || r <= maxLimit as real
  {
    var parsed :=
      match param
      case Text(s) => ParseInt(s)
      case Numeric(n) => n
      case Other => NaN;
    ClampLimit(parsed, defaultLimit, maxLimit)
  }

  /** With a positive default and maximum the limit is always positive. */
  lemma ParseLimitPositive(param: LimitParam, defaultLimit: int, maxLimit: int)
    requires 0 < defaultLimit && 0 < maxLimit
    ensures ParseLimit(param, defaultLimit, maxLimit) > 0.0
  {
  }

  /** A string whose first non-blank character is neither a digit nor a sign followed by a digit gives the default. */
  lemma NonNumericTextGivesDefault(s: string, defaultLimit: int, maxLimit: int)
    requires var t := SkipSpace(s);
      t == [] || (!IsDigit(t[0]) && ((t[0] != '-' && t[0] != '+') || |t| == 1 || !IsDigit(t[1])))
    ensures ParseLimit(Text(s), defaultLimit, maxLimit) == defaultLimit as real
  {
  }

  /** The decimal numeral of `n`, without leading zeros. */
  function Decimal(n: nat): (s: string)
    ensures s != [] && forall i :: 0 <= i < |s| ==> IsDigit(s[i])
  {
    var last := ['0' + (n % 10) as char];
    if n < 10 then last else Decimal(n / 10) + last
  }

  lemma {:induction false} DecimalValue(n: nat)
    ensures DigitsValue(Decimal(n)) == n
  {
    var s := Decimal(n);
    if n >= 10 {
      DecimalValue(n / 10);
      assert s[..|s| - 1] == Decimal(n / 10);
    }
  }

  /**
   * `parseInt` reads back a decimal numeral, whatever non-digit text follows
   * it: "25", "25px" and "25 items" all give 25.
   */
  lemma ParseIntReadsNumeral(n: nat, rest: string)
    requires rest == [] || !IsDigit(rest[0])
    ensures ParseInt(Decimal(n) + rest) == Finite(n as real)
  {
    ParseIntOfDigits(Decimal(n), rest);
    DecimalValue(n);
  }

  /** A run of digits followed by a non-digit is read as the run's value. */
  lemma ParseIntOfDigits(d: string, rest: string)
    requires d != [] && forall i :: 0 <= i < |d| ==> IsDigit(d[i])
    requires rest == [] || !IsDigit(rest[0])
    ensures ParseInt(d + rest) == Finite(DigitsValue(d) as real)
  {
    var s := d + rest;
    assert s[0] == d[0];
    ParseIntUnsigned(s);
    DigitRunPrefix(d, rest);
    assert s[..|d|] == d;
  }

  /** Text that starts with a digit is read as its leading run of digits. */
  lemma ParseIntUnsigned(s: string)
    requires s != [] && IsDigit(s[0])
    ensures ParseInt(s) == Finite(DigitsValue(s[..DigitRun(s)]) as real)
  {
    assert SkipSpace(s) == s by {
      assert !IsSpace(s[0]);
    }
  }

  lemma {:induction false} DigitRunPrefix(d: string, rest: string)
    requires forall i :: 0 <= i < |d| ==> IsDigit(d[i])
    requires rest == [] || !IsDigit(rest[0])
    ensures DigitRun(d + rest) == |d|
  {
    if d != [] {
      assert (d + rest)[1..] == d[1..] + rest;
      DigitRunPrefix(d[1..], rest);
    } else {
      assert d + rest == rest;
    }
  }

  /** A numeric string within range is taken as the limit: "25" gives 25 when the maximum is at least 25. */
  lemma ParseLimitOfNumeral(n: nat, defaultLimit: int, maxLimit: int)
    requires 0 < n <= maxLimit
    ensures ParseLimit(Text(Decimal(n)), defaultLimit, maxLimit) == n as real
  {
    ParseIntReadsNumeral(n, []);
    assert Decimal(n) + [] == Decimal(n);
  }
}
