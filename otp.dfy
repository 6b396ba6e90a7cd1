/**
 * The one-time-password slot every user and admin record carries, the three
 * columns `otp`, `otp_expires_at` and `is_verified`, and the decision a
 * verification request takes on it.  Both controllers run the same machine:
 * issuing overwrites the slot, verifying checks expiry first, then strict
 * equality of the code, and only a match changes the slot (verified, code and
 * expiry cleared).  Times are whole seconds.
 */
module Otp {
  import opened Wrappers
  import opened Strings
  import opened Php

  /** `now()->addMinutes(5)` in `sendOtp`. */
  const RegistrationWindow: nat := 5 * 60

  /** `now()->addMinutes(10)` in `login` and `adminlogin`. */
  const LoginWindow: nat := 10 * 60

  /** A value `random_int(0, 999999)` can return. */
  type Draw = n: int | 0 <= n <= 999999

  predicate IsOtpShape(code: string) {
    |code| == 6 && AllDigits(code)
  }

  /**
   * `str_pad(random_int(0, 999999), 6, '0', STR_PAD_LEFT)`.  The code is six
   * decimal digits and reads back as the draw, so distinct draws give
   * distinct codes.
   */
  function OtpCode(n: Draw): (code: string)
    ensures IsOtpShape(code) && DigitsValue(code) == n
  {
    var d := DecimalString(n);
    DecimalStringLength(n, 6);
    DigitsValueOfDecimal(n);
    LeadingZerosValue(6 - |d|, d);
    assert PadLeft(d, 6, '0') == Repeat('0', 6 - |d|) + d;
    PadLeft(d, 6, '0')
  }

  datatype Slot = Slot(otp: Option<string>, expiresAt: Option<int>, isVerified: bool)

  /** The slot of a record no code has been issued to (column defaults). */
  const Unissued := Slot(None, None, false)

  /** The slot after a successful verification: verified, code and expiry null. */
  const Consumed := Slot(None, None, true)

  /**
   * What every write to the slot keeps: code and expiry are set and cleared
   * together, a stored code has the issued shape, and a verified slot holds
   * no code.
   */
  predicate SlotInvariant(s: Slot) {
    && (s.otp.Some? <==> s.expiresAt.Some?)
    && (s.otp.Some? ==> IsOtpShape(s.otp.value))
    && (s.isVerified ==> s.otp.None?)
  }

  /** `update(['otp' => $otp, 'otp_expires_at' => $expiresAt, 'is_verified' => false])`. */
  function Issue(code: string, expiresAt: int): Slot {
    Slot(Some(code), Some(expiresAt), false)
  }

  /**
   * `now()->gt($record->otp_expires_at)`.  Carbon resolves a null operand to
   * the current time, so a slot without an expiry is never past it.
   */
  predicate PastExpiry(s: Slot, now: int) {
    s.expiresAt.Some? && now > s.expiresAt.value
  }

  /** The negation of `$record->otp !== $submitted`: a null code is identical to nothing submitted. */
  predicate CodeIdentical(s: Slot, submitted: Scalar) {
    s.otp.Some? && submitted == Str(s.otp.value)
  }

  datatype Verdict = TimedOut | Mismatch | Accepted

  /** The two checks of `verifyOtp` / `login_verify`, in the controllers' order. */
  function Decide(s: Slot, submitted: Scalar, now: int): Verdict {
    if PastExpiry(s, now) then TimedOut
    else if !CodeIdentical(s, submitted) then Mismatch
    else Accepted
  }

  /** The slot after a verdict: only an accepted code writes. */
  function After(s: Slot, v: Verdict): Slot {
    if v == Accepted then Consumed else s
  }

  /** Issuing a well-formed code, and every verdict, keep the slot invariant. */
  lemma SlotInvariantKept(s: Slot, code: string, expiresAt: int, submitted: Scalar, now: int)
    requires SlotInvariant(s) && IsOtpShape(code)
    ensures SlotInvariant(Issue(code, expiresAt))
    ensures SlotInvariant(After(s, Decide(s, submitted, now)))
  {
  }

  /** A freshly issued code is accepted exactly up to and including its expiry second. */
  lemma IssuedCodeAcceptedUntilExpiry(code: string, expiresAt: int, now: int)
    ensures Decide(Issue(code, expiresAt), Str(code), now) == Accepted <==> now <= expiresAt
  {
  }

  /**
   * Expiry is checked before equality: past the expiry even the stored code
   * itself is answered "expired", and the slot is left as it was.
   */
  lemma ExpiredEvenForStoredCode(s: Slot, now: int)
    requires s.otp.Some? && PastExpiry(s, now)
    ensures Decide(s, Str(s.otp.value), now) == TimedOut
    ensures After(s, Decide(s, Str(s.otp.value), now)) == s
  {
  }

  /** A wrong code before expiry is a mismatch and changes nothing. */
  lemma MismatchChangesNothing(s: Slot, submitted: Scalar, now: int)
    requires !PastExpiry(s, now) && !CodeIdentical(s, submitted)
    ensures Decide(s, submitted, now) == Mismatch
    ensures After(s, Mismatch) == s
  {
  }

  /**
   * No replay: once a code has been accepted, any later submission of any
   * value at any time is a mismatch (the cleared code is null and the
   * cleared expiry never reads as past).
   */
  lemma NoReplay(s: Slot, submitted: Scalar, now: int, again: Scalar, later: int)
    requires Decide(s, submitted, now) == Accepted
    ensures Decide(After(s, Accepted), again, later) == Mismatch
  {
  }

  /** Issuing a new code supersedes the previous one: the old code is never accepted afterwards. */
  lemma ReissueSupersedes(oldCode: string, newCode: string, expiresAt: int, now: int)
    requires oldCode != newCode
    ensures Decide(Issue(newCode, expiresAt), Str(oldCode), now) != Accepted
  {
  }

  /** A code that arrives as a JSON number is never identical to the stored string. */
  lemma NumberNeverAccepted(s: Slot, n: int, now: int)
    ensures Decide(s, Int(n), now) != Accepted
  {
  }

  /** One verification request: the submitted value and the time it is checked. */
  datatype Submission = Submission(code: Scalar, at: int)

  /** The verdicts of a series of requests against one slot, each seeing the slot the previous left. */
  function Verdicts(s: Slot, subs: seq<Submission>): (vs: seq<Verdict>)
    ensures |vs| == |subs|
    decreases |subs|
  {
    if subs == [] then []
    else
      var v := Decide(s, subs[0].code, subs[0].at);
      [v] + Verdicts(After(s, v), subs[1..])
  }

  function Acceptances(vs: seq<Verdict>): nat {
    if vs == [] then 0 else (if vs[0] == Accepted then 1 else 0) + Acceptances(vs[1..])
  }

  /** A slot without a code accepts nothing, however many requests arrive. */
  lemma {:induction false} CodelessSlotAcceptsNothing(s: Slot, subs: seq<Submission>)
    requires s.otp.None?
    ensures Acceptances(Verdicts(s, subs)) == 0
    decreases |subs|
  {
    if subs != [] {
      var v := Decide(s, subs[0].code, subs[0].at);
      assert Verdicts(s, subs)[1..] == Verdicts(After(s, v), subs[1..]);
      CodelessSlotAcceptsNothing(After(s, v), subs[1..]);
    }
  }

  /** Between two issuances a code is accepted at most once. */
  lemma {:induction false} AtMostOneAcceptance(s: Slot, subs: seq<Submission>)
    ensures Acceptances(Verdicts(s, subs)) <= 1
    decreases |subs|
  {
    if subs != [] {
      var v := Decide(s, subs[0].code, subs[0].at);
      assert Verdicts(s, subs)[1..] == Verdicts(After(s, v), subs[1..]);
      if v == Accepted {
        CodelessSlotAcceptsNothing(After(s, v), subs[1..]);
      } else {
        AtMostOneAcceptance(s, subs[1..]);
      }
    }
  }

  /**
   * The request that is accepted, if any, is one that carried the slot's code
   * no later than its expiry: every earlier request left the slot untouched.
   */
  lemma {:induction false} AcceptedRequestCarriedTheCode(s: Slot, subs: seq<Submission>, i: nat)
    requires i < |subs| && Verdicts(s, subs)[i] == Accepted
    ensures CodeIdentical(s, subs[i].code) && !PastExpiry(s, subs[i].at)
    decreases i
  {
    var v := Decide(s, subs[0].code, subs[0].at);
    if i > 0 {
      assert Verdicts(s, subs)[i] == Verdicts(After(s, v), subs[1..])[i - 1];
      if v == Accepted {
        CodelessSlotAcceptsNothing(After(s, v), subs[1..]);
        AcceptanceCounted(Verdicts(After(s, v), subs[1..]), i - 1);
        assert false;
      }
      AcceptedRequestCarriedTheCode(s, subs[1..], i - 1);
    }
  }

  lemma {:induction false} AcceptanceCounted(vs: seq<Verdict>, i: nat)
    requires i < |vs| && vs[i] == Accepted
    ensures Acceptances(vs) >= 1
    decreases i
  {
    if i > 0 {
      AcceptanceCounted(vs[1..], i - 1);
    }
  }
}
