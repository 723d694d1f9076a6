/**
 * The few PHP value semantics the form field relies on: loose truthiness
 * (used by `if ($error)` and by `!empty(...)`), the platform's largest
 * integer, and the decimal text of an integer produced by string concatenation.
 */
module Php {

  /** A PHP value as far as this model needs one (arrays and floats are not modelled). */
  datatype Scalar = Null | Bool(b: bool) | Int(i: int) | Str(s: string)

  /** PHP's conversion to boolean: null, false, 0, "" and "0" are falsy. */
  predicate Truthy(v: Scalar) {
    match v
    case Null => false
    case Bool(b) => b
    case Int(i) => i != 0
    case Str(s) => s != "" && s != "0"
  }

  /** PHP_INT_MAX on a 64-bit build. */
  const PhpIntMax: int := 0x7FFF_FFFF_FFFF_FFFF

  predicate IsDigit(c: char) {
    '0' <= c <= '9'
  }

  predicate IsDecimal(s: string) {
    forall i :: 0 <= i < |s| ==> IsDigit(s[i])
  }

  function DigitChar(d: nat): (c: char)
    requires d < 10
    ensures IsDigit(c)
  {
    ('0' as int + d) as char
  }

  /** The text PHP produces for a non-negative integer in a string concatenation. */
  function DecimalString(n: nat): (s: string)
    ensures s != [] && IsDecimal(s)
    decreases n
  {
    if n < 10 then [DigitChar(n)]
    else DecimalString(n / 10) + [DigitChar(n % 10)]
  }

  /** Reads a string of decimal digits back as a number. */
  function ParseDecimal(s: string): nat
    requires IsDecimal(s)
  {
    if s == [] then 0
    else 10 * ParseDecimal(s[..|s| - 1]) + (s[|s| - 1] as int - '0' as int)
  }

  /** The decimal text of `n` reads back as `n`. */
  lemma {:induction false} ParseDecimalString(n: nat)
    ensures ParseDecimal(DecimalString(n)) == n
    decreases n
  {
    if n >= 10 {
      var s := DecimalString(n);
      assert s[..|s| - 1] == DecimalString(n / 10);
      ParseDecimalString(n / 10);
    }
  }

  /** A positive integer's decimal text has no leading zero. */
  lemma {:induction false} DecimalStringNoLeadingZero(n: nat)
    requires n >= 1
    ensures DecimalString(n)[0] != '0'
    decreases n
  {
    if n >= 10 {
      DecimalStringNoLeadingZero(n / 10);
    }
  }
}
