/**
 * The few PHP value semantics the controllers depend on: a request field or a
 * column read back from the database is an int or a string, `==` compares a
 * numeric string with a number by value, `===` compares type and value, and
 * `if ($x)` treats null, "" and "0" as false.
 */
module Php {
  import opened Wrappers
  import opened Strings

  /** A PHP scalar as it arrives in a JSON request or is read from a column. */
  datatype Scalar = Int(i: int) | Str(s: string)

  /** `(string) $v` */
  function ToString(v: Scalar): string {
    match v
    case Int(i) => if i < 0 then "-" + DecimalString(-i) else DecimalString(i)
    case Str(s) => s
  }

  /**
   * A numeric string in the sense used here: a non-empty run of decimal
   * digits.  PHP also accepts signs, blanks, fractions and exponents; those
   * forms are not modelled.
   */
  predicate IsDigitString(s: string) {
    |s| > 0 && AllDigits(s)
  }

  /** PHP 8 `$v == $n` for a non-negative integer literal `$n` (a `switch` case, `where('role', $n)`). */
  predicate LooseEqualsInt(v: Scalar, n: nat) {
    match v
    case Int(i) => i == n
    case Str(s) => IsDigitString(s) && DigitsValue(s) == n
  }

  /** PHP 8 `$a == $b` for two strings: numeric strings compare by value, others byte by byte. */
  predicate LooseEqualStrings(a: string, b: string) {
    if IsDigitString(a) && IsDigitString(b) then DigitsValue(a) == DigitsValue(b) else a == b
  }

  /** `if ($v)` for a nullable string column. */
  predicate Truthy(v: Option<string>) {
    v.Some? && v.value != "" && v.value != "0"
  }

  /**
   * Comparing `(string) $v` loosely with the numeral of `n` is the same as
   * comparing `$v` loosely with `n`: the bridge between Laravel's `in:` rule
   * and a later `switch` on the stored value.
   */
  lemma LooseStringsAgreeWithInt(v: Scalar, n: nat)
    ensures LooseEqualStrings(ToString(v), DecimalString(n)) <==> LooseEqualsInt(v, n)
  {
    DigitsValueOfDecimal(n);
    match v
    case Int(i) =>
      if i >= 0 {
        DigitsValueOfDecimal(i);
        if DecimalString(i) == DecimalString(n) {
          DigitsValueOfDecimal(n);
        }
      } else {
        assert ToString(v)[0] == '-';
        assert !IsDigit(ToString(v)[0]);
      }
    case Str(s) =>
  }
}
