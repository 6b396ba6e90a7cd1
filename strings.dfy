/**
 * Character and string helpers the controllers use: decimal numerals and
 * their values, PHP's `str_pad` with STR_PAD_LEFT, the phone mask returned by
 * `sendOtp`, and the `strtolower(trim(...))` applied to a registering user's
 * e-mail address.  Characters are ASCII as PHP's byte-wise functions see them.
 */
module Strings {

  predicate IsDigit(c: char) { '0' <= c <= '9' }

  predicate IsUpperAscii(c: char) { 'A' <= c <= 'Z' }

  predicate IsLowerAscii(c: char) { 'a' <= c <= 'z' }

  predicate AllDigits(s: string) {
    forall i :: 0 <= i < |s| ==> IsDigit(s[i])
  }

  function DigitChar(d: nat): (c: char)
    requires d < 10
    ensures IsDigit(c) && c as int - '0' as int == d
  {
    ('0' as int + d) as char
  }

  function DigitValue(c: char): nat
    requires IsDigit(c)
  {
    c as int - '0' as int
  }

  function Pow10(k: nat): nat {
    if k == 0 then 1 else 10 * Pow10(k - 1)
  }

  /** The decimal numeral of `n` without leading zeros, as PHP turns an int into a string. */
  function DecimalString(n: nat): (r: string)
    ensures 0 < |r| && AllDigits(r)
  {
    if n < 10 then [DigitChar(n)] else DecimalString(n / 10) + [DigitChar(n % 10)]
  }

  /** The value of a numeral, most significant digit first; leading zeros allowed. */
  function DigitsValue(s: string): nat
    requires AllDigits(s)
  {
    if s == [] then 0 else DigitsValue(s[..|s| - 1]) * 10 + DigitValue(s[|s| - 1])
  }

  /** Reading back a numeral that `DecimalString` wrote gives the number again. */
  lemma {:induction false} DigitsValueOfDecimal(n: nat)
    ensures DigitsValue(DecimalString(n)) == n
  {
    if n >= 10 {
      var s := DecimalString(n);
      assert s[..|s| - 1] == DecimalString(n / 10);
      DigitsValueOfDecimal(n / 10);
    }
  }

  /** A number below 10^k has a numeral of at most k digits. */
  lemma {:induction false} DecimalStringLength(n: nat, k: nat)
    requires 0 < k && n < Pow10(k)
    ensures |DecimalString(n)| <= k
  {
    if n >= 10 {
      assert n / 10 < Pow10(k - 1);
      DecimalStringLength(n / 10, k - 1);
    }
  }

  function Repeat(c: char, n: nat): (r: string)
    ensures |r| == n && forall i :: 0 <= i < n ==> r[i] == c
  {
    seq(n, _ => c)
  }

  /**
   * PHP's `str_pad($s, $width, $pad, STR_PAD_LEFT)` for a one-character pad:
   * a string already `width` long or longer comes back unchanged.
   */
  function PadLeft(s: string, width: nat, pad: char): (r: string)
    ensures |r| == if |s| >= width then |s| else width
    ensures r[|r| - |s|..] == s
    ensures forall i :: 0 <= i < |r| - |s| ==> r[i] == pad
  {
    if |s| >= width then s else Repeat(pad, width - |s|) + s
  }

  lemma {:induction false} ZerosValue(k: nat)
    ensures AllDigits(Repeat('0', k)) && DigitsValue(Repeat('0', k)) == 0
  {
    if k > 0 {
      assert Repeat('0', k)[..k - 1] == Repeat('0', k - 1);
      ZerosValue(k - 1);
    }
  }

  /** Leading zeros do not change the value of a numeral. */
  lemma {:induction false} LeadingZerosValue(k: nat, s: string)
    requires AllDigits(s)
    ensures AllDigits(Repeat('0', k) + s)
    ensures DigitsValue(Repeat('0', k) + s) == DigitsValue(s)
    decreases |s|
  {
    var z := Repeat('0', k);
    if s == [] {
      assert z + s == z;
      ZerosValue(k);
    } else {
      var t := z + s;
      assert t[..|t| - 1] == z + s[..|s| - 1];
      LeadingZerosValue(k, s[..|s| - 1]);
    }
  }

  function Min(a: int, b: int): int { if a <= b then a else b }

  function Max(a: int, b: int): int { if a >= b then a else b }

  /**
   * `substr($phone, 0, 3) . 'XXXXX' . substr($phone, -2)`; PHP clamps both
   * substrings to the string, so a shorter input is shown whole around the
   * five X's.
   */
  function MaskPhone(phone: string): (masked: string)
    ensures |phone| >= 3 ==> |masked| == 10
    ensures |phone| >= 3 ==> masked[..3] == phone[..3] && masked[8..] == phone[|phone| - 2..]
    ensures |phone| >= 3 ==> forall i :: 3 <= i < 8 ==> masked[i] == 'X'
  {
    phone[..Min(3, |phone|)] + "XXXXX" + phone[Max(0, |phone| - 2)..]
  }

  /** For a ten-digit phone number the mask hides exactly the middle five digits. */
  lemma MaskHidesMiddleFive(phone: string)
    requires |phone| == 10 && AllDigits(phone)
    ensures |MaskPhone(phone)| == |phone|
    ensures forall i :: 0 <= i < 10 ==> (MaskPhone(phone)[i] == phone[i] <==> i < 3 || 8 <= i)
  {
    var m := MaskPhone(phone);
    forall i | 0 <= i < 10
      ensures m[i] == phone[i] <==> i < 3 || 8 <= i
    {
      if i < 3 {
        assert m[i] == m[..3][i];
      } else if 8 <= i {
        assert m[i] == m[8..][i - 8];
      } else {
        assert IsDigit(phone[i]);
      }
    }
  }

  /** The characters PHP's `trim` removes by default: " \t\n\r\0\x0B". */
  predicate IsTrimChar(c: char) {
    c == ' ' || c == '\t' || c == '\n' || c == '\r' || c == '\0' || c == '\U{B}'
  }

  function TrimStart(s: string): (r: string)
    ensures |r| <= |s| && r == s[|s| - |r|..]
    ensures r == [] || !IsTrimChar(r[0])
    ensures forall i :: 0 <= i < |s| - |r| ==> IsTrimChar(s[i])
  {
    if s != [] && IsTrimChar(s[0]) then TrimStart(s[1..]) else s
  }

  function TrimEnd(s: string): (r: string)
    ensures |r| <= |s| && r == s[..|r|]
    ensures r == [] || !IsTrimChar(r[|r| - 1])
    ensures forall i :: |r| <= i < |s| ==> IsTrimChar(s[i])
  {
    if s != [] && IsTrimChar(s[|s| - 1]) then TrimEnd(s[..|s| - 1]) else s
  }

  /**
   * PHP's `trim`: the result is a slice of the input with only trim
   * characters cut off either side, and neither of its ends is one.
   */
  function Trim(s: string): (r: string)
    ensures r == [] || (!IsTrimChar(r[0]) && !IsTrimChar(r[|r| - 1]))
    ensures exists a, b ::
      && 0 <= a <= b <= |s| && r == s[a..b]
      && (forall i :: 0 <= i < a ==> IsTrimChar(s[i]))
      && (forall i :: b <= i < |s| ==> IsTrimChar(s[i]))
  {
    TrimCutsOnlyTrimChars(s);
    TrimEnd(TrimStart(s))
  }

  /** A prefix of a suffix of s is a slice of s. */
  lemma PrefixOfSuffix(s: string, t: string, u: string)
    requires |t| <= |s| && t == s[|s| - |t|..]
    requires |u| <= |t| && u == t[..|u|]
    ensures u == s[|s| - |t|..|s| - |t| + |u|]
  {
  }

  /** Where the two halves of `trim` cut: the slice kept and the characters cut on each side. */
  lemma TrimCutsOnlyTrimChars(s: string)
    ensures var t := TrimStart(s);
      var a := |s| - |t|;
      var b := a + |TrimEnd(t)|;
      && 0 <= a <= b <= |s| && TrimEnd(t) == s[a..b]
      && (forall i :: 0 <= i < a ==> IsTrimChar(s[i]))
      && (forall i :: b <= i < |s| ==> IsTrimChar(s[i]))
  {
    var t := TrimStart(s);
    var u := TrimEnd(t);
    var a := |s| - |t|;
    PrefixOfSuffix(s, t, u);
    forall i | a + |u| <= i < |s|
      ensures IsTrimChar(s[i])
    {
      assert s[i] == t[i - a];
    }
  }

  /** A character `trim` would not remove survives the trim. */
  lemma NonTrimCharSurvivesTrim(s: string, i: nat)
    requires i < |s| && !IsTrimChar(s[i])
    ensures s[i] in Trim(s)
  {
    var t := TrimStart(s);
    assert |s| - |t| <= i;
    var j := i - (|s| - |t|);
    assert t[j] == s[i];
    assert j < |TrimEnd(t)|;
    assert TrimEnd(t)[j] == s[i];
  }

  function LowerChar(c: char): char {
    if IsUpperAscii(c) then (c as int + 32) as char else c
  }

  /** PHP 8's `strtolower`: ASCII letters only, byte by byte. */
  function ToLower(s: string): string {
    seq(|s|, i requires 0 <= i < |s| => LowerChar(s[i]))
  }

  /** `strtolower(trim($email))`, the form in which `register` stores an e-mail address. */
  function NormalizeEmail(s: string): string {
    ToLower(Trim(s))
  }

  /** `strtolower` keeps every character that is not an upper-case letter. */
  lemma LowerKeeps(s: string, c: char)
    requires c in s && !IsUpperAscii(c)
    ensures c in ToLower(s)
  {
    var i :| 0 <= i < |s| && s[i] == c;
    assert ToLower(s)[i] == c;
  }

  /** Normalising an already normalised address changes nothing. */
  lemma NormalizeEmailIdempotent(s: string)
    ensures NormalizeEmail(NormalizeEmail(s)) == NormalizeEmail(s)
  {
    var l := NormalizeEmail(s);
    var t := Trim(s);
    if l != [] {
      assert !IsTrimChar(l[0]) && !IsTrimChar(l[|l| - 1]) by {
        assert l[0] == LowerChar(t[0]) && l[|l| - 1] == LowerChar(t[|t| - 1]);
      }
      assert TrimStart(l) == l;
      assert TrimEnd(l) == l;
    }
    assert Trim(l) == l;
    assert ToLower(l) == l;
  }
}
