/**
 * `UserAuthController`: registration and login of users by one-time
 * password.  `sendOtp` / `verifyOtp` run the phone flow (SMS, five minutes),
 * `login` / `login_verify` the e-mail flow (password first, then a mailed
 * code valid ten minutes), and `register` completes a verified phone's
 * account.  Each endpoint is a method over the users table; the clock, the
 * random draw, the shuffle and the outcome of the SMS or mail delivery are
 * parameters.
 */
module UserAuth {
  import opened Wrappers
  import opened Strings
  import opened Php
  import opened Validation
  import opened Otp
  import opened Passwords
  import opened Store
  import opened Http

  /** `sendOtp`: a code for the phone, stored before the SMS goes out. */
  method SendOtp(users: PrincipalTable, phone: string, draw: Draw, now: int, delivered: bool) returns (r: Response)
    requires users.Valid()
    modifies users
    ensures users.Valid()
    ensures !PhoneRule(phone) ==> r == Response(500, ServerError) && users.records == old(users.records)
    ensures PhoneRule(phone) ==>
      var at := FirstOrCreated(old(users.records), phone);
      && users.records == WithSlot(at.records, at.index, Issue(OtpCode(draw), now + RegistrationWindow))
      && r == if delivered then Response(200, OtpSent(Some(MaskPhone(phone)))) else Response(500, DeliveryFailed)
  {
    if !PhoneRule(phone) {
      return Response(500, ServerError);
    }
    var k := users.FirstOrCreate(phone);
    users.IssueOtp(k, OtpCode(draw), now + RegistrationWindow);
    if !delivered {
      return Response(500, DeliveryFailed);
    }
    r := Response(200, OtpSent(Some(MaskPhone(phone))));
  }

  /** `phone` `required|numeric|digits:10` and `otp` `required|numeric|digits:6` (the digits rules imply the others). */
  predicate VerifyOtpFormValid(phone: string, otp: Scalar) {
    PhoneRule(phone) && DigitsRule(otp, 6)
  }

  /** The answer to an accepted code: a token and `registration_key` 1 when the user has an e-mail address, else key 2. */
  function VerifiedUserResponse(p: Principal): (r: Response)
    ensures r.status == 200
    ensures r.reply.Authenticated? <==> Truthy(p.email)
    ensures r.reply.Authenticated? ==> r.reply.token == Token(UserAccount, p.id) && r.reply.registrationKey == Some(1)
    ensures !r.reply.Authenticated? ==> r.reply == CompleteRegistration
  {
    if Truthy(p.email) then Response(200, Authenticated(Token(UserAccount, p.id), Some(1)))
    else Response(200, CompleteRegistration)
  }

  /**
   * `verifyOtp`: validation and lookup first (a failed rule is caught as a
   * 500, an unknown phone is a 404), then the slot's verdict; only an
   * accepted code writes.
   */
  method VerifyOtp(users: PrincipalTable, phone: string, otp: Scalar, now: int) returns (r: Response)
    requires users.Valid()
    modifies users
    ensures users.Valid()
    ensures !VerifyOtpFormValid(phone, otp) ==>
      r == Response(500, ServerError) && users.records == old(users.records)
    ensures VerifyOtpFormValid(phone, otp) && FindFirst(old(users.records), ByPhone(phone)).None? ==>
      r == Response(404, UnknownPrincipal) && users.records == old(users.records)
    ensures VerifyOtpFormValid(phone, otp) && FindFirst(old(users.records), ByPhone(phone)).Some? ==>
      var k := FindFirst(old(users.records), ByPhone(phone)).value;
      var v := Decide(old(users.records)[k].slot, otp, now);
      && users.records == (if v == Accepted then WithSlot(old(users.records), k, Consumed) else old(users.records))
      && r == VerdictResponse(v, VerifiedUserResponse(old(users.records)[k]))
  {
    if !VerifyOtpFormValid(phone, otp) {
      return Response(500, ServerError);
    }
    var found := FindFirst(users.records, ByPhone(phone));
    if found.None? {
      return Response(404, UnknownPrincipal);
    }
    var k := found.value;
    var user := users.records[k];
    var v := users.Attempt(k, otp, now);
    r := VerdictResponse(v, VerifiedUserResponse(user));
  }

  /** `email` `required|email`, `password` `required|string|min:6`. */
  predicate LoginFormValid(email: string, password: string) {
    Required(email) && EmailShaped(email) && Required(password) && |password| >= 6
  }

  /**
   * `login`: validation outside the `try` (422), then the credential check
   * (401 for an unknown address and for a wrong password alike, nothing
   * written), then a ten-minute code stored before the mail goes out.
   */
  method Login(users: PrincipalTable, email: string, password: string, draw: Draw, now: int, delivered: bool)
    returns (r: Response)
    requires users.Valid()
    modifies users
    ensures users.Valid()
    ensures !LoginFormValid(email, password) ==>
      r == Response(422, Invalid) && users.records == old(users.records)
    ensures LoginFormValid(email, password) && Credentialed(old(users.records), email, password).None? ==>
      r == Response(401, BadCredentials) && users.records == old(users.records)
    ensures LoginFormValid(email, password) && Credentialed(old(users.records), email, password).Some? ==>
      var k := Credentialed(old(users.records), email, password).value;
      && users.records == WithSlot(old(users.records), k, Issue(OtpCode(draw), now + LoginWindow))
      && r == if delivered then Response(200, OtpSent(None)) else Response(500, DeliveryFailed)
  {
    if !LoginFormValid(email, password) {
      return Response(422, Invalid);
    }
    var found := FindFirst(users.records, ByEmail(email));
    if found.None? || !PasswordChecks(password, users.records[found.value].password) {
      return Response(401, BadCredentials);
    }
    users.IssueOtp(found.value, OtpCode(draw), now + LoginWindow);
    if !delivered {
      return Response(500, DeliveryFailed);
    }
    r := Response(200, OtpSent(None));
  }

  /** `email` `required|email`, `otp` `required|string|digits:6`: the code must arrive as a string. */
  predicate LoginVerifyFormValid(email: string, otp: Scalar) {
    Required(email) && EmailShaped(email) && otp.Str? && DigitsRule(otp, 6)
  }

  /** `login_verify`: as `verifyOtp`, looked up by e-mail, and success always carries a token. */
  method LoginVerify(users: PrincipalTable, email: string, otp: Scalar, now: int) returns (r: Response)
    requires users.Valid()
    modifies users
    ensures users.Valid()
    ensures !LoginVerifyFormValid(email, otp) ==>
      r == Response(500, ServerError) && users.records == old(users.records)
    ensures LoginVerifyFormValid(email, otp) && FindFirst(old(users.records), ByEmail(email)).None? ==>
      r == Response(404, UnknownPrincipal) && users.records == old(users.records)
    ensures LoginVerifyFormValid(email, otp) && FindFirst(old(users.records), ByEmail(email)).Some? ==>
      var k := FindFirst(old(users.records), ByEmail(email)).value;
      var v := Decide(old(users.records)[k].slot, otp, now);
      && users.records == (if v == Accepted then WithSlot(old(users.records), k, Consumed) else old(users.records))
      && r == VerdictResponse(v, Response(200, Authenticated(Token(UserAccount, old(users.records)[k].id), None)))
  {
    if !LoginVerifyFormValid(email, otp) {
      return Response(500, ServerError);
    }
    var found := FindFirst(users.records, ByEmail(email));
    if found.None? {
      return Response(404, UnknownPrincipal);
    }
    var k := found.value;
    var id := users.records[k].id;
    var v := users.Attempt(k, otp, now);
    r := VerdictResponse(v, Response(200, Authenticated(Token(UserAccount, id), None)));
  }

  /** The fields of `register` the model keeps (the date, GST and upload fields are summarised by one flag). */
  datatype RegistrationForm = RegistrationForm(
    phone: string,
    fullName: string,
    email: string,
    userType: string,
    gender: string,
    aadhaar: string,
    pan: string,
    addressLine: string,
    state: string,
    city: string,
    pincode: string)

  /** `unique:users,email,<id>`: no other row holds the address. */
  predicate EmailFreeExcept(rs: seq<Principal>, k: nat, email: string) {
    forall j :: 0 <= j < |rs| && j != k ==> rs[j].email != Some(email)
  }

  /**
   * The rules of `register` on the kept fields, for the row k the phone
   * found; `otherRulesHold` stands for `dob_or_incorporation`,
   * `gst_details` and the three uploads.
   */
  predicate RegistrationValid(rs: seq<Principal>, k: nat, f: RegistrationForm, otherRulesHold: bool) {
    && PhoneRule(f.phone)
    && Required(f.fullName) && MaxLength(f.fullName, 255)
    && Required(f.email) && EmailShaped(f.email) && MaxLength(f.email, 255) && EmailFreeExcept(rs, k, f.email)
    && Required(f.userType) && InRule(Str(f.userType), ["1", "2"])
    && Required(f.gender) && InRule(Str(f.gender), ["Male", "Female", "Other"])
    && DigitsRule(Str(f.aadhaar), 12)
    && Required(f.pan) && PanRule(f.pan)
    && Required(f.addressLine) && MaxLength(f.addressLine, 255)
    && Required(f.state) && MaxLength(f.state, 100)
    && Required(f.city) && MaxLength(f.city, 100)
    && DigitsRule(Str(f.pincode), 6)
    && otherRulesHold
  }

  /** The row `register` saves: a hash of the generated password, the normalised address, the profile columns. */
  function RegisteredPrincipal(p: Principal, f: RegistrationForm, password: string): Principal {
    p.(password := Some(HashOf(password)),
       email := Some(NormalizeEmail(f.email)),
       profile := p.profile[
         "full_name" := Str(f.fullName)][
         "user_type" := Str(f.userType)][
         "gender" := Str(f.gender)][
         "aadhaar_number" := Str(f.aadhaar)][
         "pan_number" := Str(f.pan)][
         "address_line" := Str(f.addressLine)][
         "state" := Str(f.state)][
         "city" := Str(f.city)][
         "pincode" := Str(f.pincode)])
  }

  /**
   * `register`: the phone lookup comes first (404), then validation (a
   * failure is caught as a 500), then the temporary password is generated
   * and mailed, and the row is saved only once the mail went out.
   */
  method Register(users: PrincipalTable, f: RegistrationForm, otherRulesHold: bool, shuffle: seq<nat>, delivered: bool)
    returns (r: Response)
    requires users.Valid()
    requires IsPermutation(shuffle, PoolSize(TemporaryPasswordLength))
    modifies users
    ensures users.Valid()
    ensures FindFirst(old(users.records), ByPhone(f.phone)).None? ==>
      r == Response(404, UnknownPrincipal) && users.records == old(users.records)
    ensures FindFirst(old(users.records), ByPhone(f.phone)).Some? ==>
      var k := FindFirst(old(users.records), ByPhone(f.phone)).value;
      && (!RegistrationValid(old(users.records), k, f, otherRulesHold) ==>
           r == Response(500, ServerError) && users.records == old(users.records))
      && (RegistrationValid(old(users.records), k, f, otherRulesHold) && !delivered ==>
           r == Response(500, DeliveryFailed) && users.records == old(users.records))
      && (RegistrationValid(old(users.records), k, f, otherRulesHold) && delivered ==>
           var pw := GenerateStrongPassword(TemporaryPasswordLength, shuffle);
           && users.records == old(users.records)[k := RegisteredPrincipal(old(users.records)[k], f, pw)]
           && r == Response(201, Registered(Token(UserAccount, old(users.records)[k].id))))
  {
    var found := FindFirst(users.records, ByPhone(f.phone));
    if found.None? {
      return Response(404, UnknownPrincipal);
    }
    var k := found.value;
    if !RegistrationValid(users.records, k, f, otherRulesHold) {
      return Response(500, ServerError);
    }
    var pw := GenerateStrongPassword(TemporaryPasswordLength, shuffle);
    var user := RegisteredPrincipal(users.records[k], f, pw);
    if !delivered {
      return Response(500, DeliveryFailed);
    }
    users.Save(k, user);
    r := Response(201, Registered(Token(UserAccount, user.id)));
  }

  /** A registered address is never falsy: it keeps its '@' through `trim` and `strtolower`. */
  lemma RegisteredEmailIsTruthy(email: string)
    requires EmailShaped(email)
    ensures Truthy(Some(NormalizeEmail(email)))
  {
    var i :| 0 < i < |email| - 1 && email[i] == '@';
    NonTrimCharSurvivesTrim(email, i);
    LowerKeeps(Trim(email), '@');
    assert '@' in NormalizeEmail(email);
  }

  /**
   * Once registered, a user who verifies a phone code again is sent to the
   * dashboard: the answer carries a token and `registration_key` 1.
   */
  lemma RegisteredUserGoesToDashboard(p: Principal, f: RegistrationForm, password: string)
    requires EmailShaped(f.email)
    ensures VerifiedUserResponse(RegisteredPrincipal(p, f, password)).reply ==
      Authenticated(Token(UserAccount, p.id), Some(1))
  {
    RegisteredEmailIsTruthy(f.email);
  }

  /**
   * After `register` saved row k, the e-mail login with the normalised
   * address finds that row and accepts the mailed password and no other,
   * provided no other row holds the normalised address (the `unique` rule
   * checks the address as submitted).
   */
  lemma RegisteredPasswordOpensLogin(rs: seq<Principal>, k: nat, f: RegistrationForm, password: string, other: string)
    requires k < |rs| && EmailFreeExcept(rs, k, NormalizeEmail(f.email))
    requires other != password
    ensures var after := rs[k := RegisteredPrincipal(rs[k], f, password)];
      && Credentialed(after, NormalizeEmail(f.email), password) == Some(k)
      && Credentialed(after, NormalizeEmail(f.email), other).None?
  {
    var row := RegisteredPrincipal(rs[k], f, password);
    CredentialedRewrite(rs, k, row, NormalizeEmail(f.email), password);
    CredentialedRewrite(rs, k, row, NormalizeEmail(f.email), other);
  }

  /**
   * A phone `sendOtp` has just created a row for, verified with the code it
   * was sent in time, is asked to complete its registration (key 2) and
   * gets no token: the new row has no e-mail address.
   */
  lemma NewPhoneCompletesRegistration(rs: seq<Principal>, phone: string, code: string, sentAt: int, now: int)
    requires WellFormed(rs) && FindFirst(rs, ByPhone(phone)).None?
    requires IsOtpShape(code) && now <= sentAt + RegistrationWindow
    ensures var at := FirstOrCreated(rs, phone);
      var w := WithSlot(at.records, at.index, Issue(code, sentAt + RegistrationWindow));
      && FindFirst(w, ByPhone(phone)) == Some(|rs|)
      && VerdictResponse(Decide(w[|rs|].slot, Str(code), now), VerifiedUserResponse(w[|rs|])) ==
         Response(200, CompleteRegistration)
  {
    var at := FirstOrCreated(rs, phone);
    var slot := Issue(code, sentAt + RegistrationWindow);
    assert at == Located(rs + [FreshPrincipal(|rs| + 1, phone)], |rs|);
    var w := WithSlot(at.records, |rs|, slot);
    FirstOrCreatedKeepsWellFormed(rs, phone);
    SlotInvariantKept(Unissued, code, sentAt + RegistrationWindow, Str(code), now);
    WithSlotKeepsOthers(at.records, |rs|, slot);
    PhoneLookupFinds(w, |rs|);
    assert w[|rs|] == FreshPrincipal(|rs| + 1, phone).(slot := slot);
    IssuedCodeAcceptedUntilExpiry(code, sentAt + RegistrationWindow, now);
  }

  /** An issued code passes the `digits:6` rules of both verification forms. */
  lemma IssuedCodePassesValidation(n: Draw)
    ensures DigitsRule(Str(OtpCode(n)), 6) && Required(OtpCode(n))
  {
    DigitRunRequired(OtpCode(n));
  }

  /**
   * The phone flow end to end: the code sent by `sendOtp` is accepted once
   * within its five minutes, and the same code sent again is refused as
   * invalid, whenever it arrives.
   */
  method SendThenVerifyTwice(users: PrincipalTable, phone: string, draw: Draw, sentAt: int, firstTry: int, secondTry: int)
    returns (first: Response, second: Response)
    requires users.Valid() && PhoneRule(phone)
    requires firstTry <= sentAt + RegistrationWindow
    modifies users
    ensures users.Valid()
    ensures first.status == 200 && second == Response(401, OtpInvalid)
  {
    var before := users.records;
    var sent := SendOtp(users, phone, draw, sentAt, true);
    var slot := Issue(OtpCode(draw), sentAt + RegistrationWindow);
    IssuedCodeFoundByPhone(before, phone, slot);
    IssuedCodePassesValidation(draw);
    var k := FirstOrCreated(before, phone).index;
    var issued := users.records;
    assert FindFirst(issued, ByPhone(phone)) == Some(k) && issued[k].slot == slot;
    IssuedCodeAcceptedUntilExpiry(OtpCode(draw), sentAt + RegistrationWindow, firstTry);
    first := VerifyOtp(users, phone, Str(OtpCode(draw)), firstTry);
    assert users.records == WithSlot(issued, k, Consumed);
    WithSlotKeepsLookups(issued, k, Consumed, ByPhone(phone));
    assert users.records[k].slot == Consumed;
    NoReplay(slot, Str(OtpCode(draw)), firstTry, Str(OtpCode(draw)), secondTry);
    second := VerifyOtp(users, phone, Str(OtpCode(draw)), secondTry);
  }
}
