/**
 * The Laravel validation rules the controllers attach to their inputs, as
 * predicates over the submitted values.  Each controller decides separately
 * what a failed rule turns into (a 422 answer, or a 500 when the failure is
 * raised inside a `try` that catches every exception).
 */
module Validation {
  import opened Wrappers
  import opened Strings
  import opened Php

  /** `required` on a string: not empty once trimmed. */
  predicate Required(s: string) {
    Trim(s) != []
  }

  /** A non-empty run of digits passes `required`. */
  lemma DigitRunRequired(s: string)
    requires |s| > 0 && AllDigits(s)
    ensures Required(s)
  {
    assert IsDigit(s[0]);
    NonTrimCharSurvivesTrim(s, 0);
  }

  /** `max:n` on a string. */
  predicate MaxLength(s: string, n: nat) {
    |s| <= n
  }

  /** `digits:n` (with `numeric`): only decimal digits, exactly n of them. */
  predicate DigitsRule(v: Scalar, n: nat) {
    |ToString(v)| == n && AllDigits(ToString(v))
  }

  /** `required|numeric|digits:10`, the rule on every phone number an OTP is sent to. */
  predicate PhoneRule(phone: string) {
    DigitsRule(Str(phone), 10)
  }

  /** `in:a,b,...`: `(string) $value` loosely equal to one of the options. */
  predicate InRule(v: Scalar, options: seq<string>) {
    exists o :: o in options && LooseEqualStrings(ToString(v), o)
  }

  /**
   * `email`: reduced to its skeleton, exactly one '@' with text on both
   * sides.  Laravel delegates the full check to an RFC 5322 validator.
   */
  predicate EmailShaped(s: string) {
    exists i :: 0 < i < |s| - 1 && s[i] == '@' && forall j :: 0 <= j < |s| && j != i ==> s[j] != '@'
  }

  /** `[A-Z]{5}[0-9]{4}[A-Z]{1}`, the shape of an Indian PAN. */
  predicate PanShape(s: string) {
    && |s| == 10
    && (forall i :: 0 <= i < 5 ==> IsUpperAscii(s[i]))
    && (forall i :: 5 <= i < 9 ==> IsDigit(s[i]))
    && IsUpperAscii(s[9])
  }

  /**
   * `regex:/^[A-Z]{5}[0-9]{4}[A-Z]{1}$/`.  Without the D modifier PCRE's `$`
   * also matches just before a final newline.
   */
  predicate PanRegexMatches(s: string) {
    PanShape(s) || (|s| == 11 && s[10] == '\n' && PanShape(s[..10]))
  }

  /** `required|string|size:10|regex:...` on `pan_number`. */
  predicate PanRule(s: string) {
    |s| == 10 && PanRegexMatches(s)
  }

  /**
   * The `size:10` part is what keeps the rule exact: the pattern alone lets
   * a trailing newline through, the combined rule accepts exactly the PAN
   * shape.
   */
  lemma PanRuleIsExact(s: string)
    ensures PanRule(s) <==> PanShape(s)
    ensures PanRegexMatches(s + "\n") <==> PanShape(s)
  {
    if |s| == 10 {
      assert (s + "\n")[..10] == s;
    }
  }
}
