# Affiliate CMS authentication core in Dafny

This project models the authentication back end of the Affiliate CMS
(a Laravel application). Three controllers are covered:

- `UserAuthController`: phone OTP sign-up, e-mail plus password plus OTP
  login, and completion of a user's registration.
- `AdminAuthController`: the same OTP flows for admins, and the dashboard,
  whose content depends on the admin's role.
- `AdminProfileController`: creation of admins and users with a mailed
  temporary password, and the admin's password change.

Users and admins each carry one OTP slot: the code, its expiry and the
verified flag. Issuing a code overwrites the slot. Verifying checks, in
order: the lookup, then the expiry, then strict (`!==`) equality of the
code. Only a match writes, and it marks the record verified and clears the
code and the expiry.

Layout, one module per file:

- `Wrappers`: the `Option` type.
- `Strings`: numerals, `str_pad`, the phone mask, `trim` and `strtolower`.
- `Php`: the few PHP value semantics the code depends on. These are loose
  `==` against numbers, strict `===`, and truthiness.
- `Validation`: the Laravel rules the controllers use.
- `Otp`: the slot, issuing a code, and the verification verdict, all as
  pure values.
- `Passwords`: the complexity closure, the password-change form, and
  `generateStrongPassword`.
- `Store`: records and lookups, plus the `PrincipalTable` class. That class
  is one database table whose methods are the in-place writes the
  controllers make.
- `Http`: the status codes and replies.
- `UserAuth`, `AdminAuth`, `AdminProfile`: one method per endpoint. Each
  method states the complete new table and the response for every branch.

The clock, `random_int`, `str_shuffle`, and whether the SMS gateway or the
mailer succeeded are parameters. The clock is whole seconds. `random_int`
becomes a `Draw` in 0..999999. `str_shuffle` becomes a permutation of
positions. Delivery is a boolean. `Hash::make` is an injective tag, so
`Hash::check` is equality of the tags.

Where the code and its own comments or messages suggest something else, the
model follows the code:

- **Failed validation can be a 500, not a 422.** In `sendOtp`, `verifyOtp`,
  `login_verify` and `register` of the user controller, and in the admin
  `sendOtp`, `adminstore` and `store`, the failure is raised inside a `try`
  that catches every `\Exception`, so it is answered with a 500. The admin
  `verifyOtp` and `login_verify`, both logins and `changePassword` validate
  outside any `try` and answer 422.
- **A used code reads as invalid, not as unknown.** After a successful
  verification the slot holds no code and no expiry. The model takes
  Carbon's `gt` to compare a null expiry with the current time, as Carbon 2
  does, so a null expiry never counts as past. A replayed code is therefore
  answered 401 "invalid", never "expired" and never "not found".
- **The code stays stored when delivery fails.** It is written before the
  SMS or the mail goes out, so a delivery failure (500) leaves it in place
  and it can still be verified.
- **A user created by `store` gets the hash of a request field.** The
  stored hash is `Hash::make($request->randomPassword)`, not the hash of the
  generated password the mail announces; see "## Findings".
- **Short temporary passwords repeat no character.** For lengths up to 88
  the 88-character alphabet is laid out once before shuffling, so the
  password is drawn without replacement.

## Model

| member | source | states |
|---|---|---|
| Strings.PadLeft | affiliate_backend/app/Http/Controllers/Auth/User/UserAuthController.php:30 | `str_pad(..., STR_PAD_LEFT)` keeps the string as the suffix, pads only on the left with the pad character, and never shortens |
| Strings.MaskPhone | affiliate_backend/app/Http/Controllers/Auth/User/UserAuthController.php:64 | for a phone of 3 or more characters the mask has length 10: the first three characters, five X's, and the last two characters |
| Strings.MaskHidesMiddleFive | affiliate_backend/app/Http/Controllers/Auth/User/UserAuthController.php:64 | for a 10-digit phone, mask position i equals the phone's digit exactly when i < 3 or i >= 8, so exactly five digits are hidden |
| Strings.NonTrimCharSurvivesTrim | affiliate_backend/app/Http/Controllers/Auth/User/UserAuthController.php:180 | `trim` never removes a character that is not whitespace or NUL |
| Strings.Trim | affiliate_backend/app/Http/Controllers/Auth/User/UserAuthController.php:180 | PHP `trim` with its default character set: the result is a slice s[a..b] of the input, everything cut before a and after b is a trim character, and neither end of the result is one |
| Strings.NormalizeEmail | affiliate_backend/app/Http/Controllers/Auth/User/UserAuthController.php:180 | `strtolower(trim($email))`, lower-casing ASCII letters only |
| Strings.NormalizeEmailIdempotent | affiliate_backend/app/Http/Controllers/Auth/User/UserAuthController.php:180 | `strtolower(trim(...))` applied to its own result changes nothing |
| Strings.DigitsValueOfDecimal | affiliate_backend/app/Http/Controllers/Auth/User/UserAuthController.php:30 | reading back the decimal numeral of n gives n |
| Php.LooseStringsAgreeWithInt | affiliate_backend/app/Http/Controllers/Auth/Admin/AdminAuthController.php:231-249 | comparing `(string)$v` loosely with the numeral of n agrees with comparing `$v == n`, so the `in:` rule and the `switch` classify a role alike |
| Php.LooseEqualsInt | affiliate_backend/app/Http/Controllers/Auth/Admin/AdminAuthController.php:231-249 | PHP 8 `$v == n` for a role `case`: an integer by value, a string of digits by its value, any other string never |
| Validation.PanRuleIsExact | affiliate_backend/app/Http/Controllers/Auth/User/UserAuthController.php:165 | the PAN rule accepts exactly the shape AAAAA9999A; the pattern alone also lets a trailing newline through, and `size:10` removes it |
| Validation.DigitRunRequired | affiliate_backend/app/Http/Controllers/Auth/User/UserAuthController.php:81 | a non-empty run of digits passes `required` |
| Validation.DigitsRule | affiliate_backend/app/Http/Controllers/Auth/User/UserAuthController.php:81 | `numeric\|digits:n`: the value as a string (`(string) $v`) is exactly n decimal digits |
| Validation.InRule | affiliate_backend/app/Http/Controllers/Auth/User/UserAuthController.php:160-161 | `in:...`: the value as a string loosely equals one of the listed options |
| Validation.PanRule | affiliate_backend/app/Http/Controllers/Auth/User/UserAuthController.php:165 | `string\|size:10\|regex:/^[A-Z]{5}[0-9]{4}[A-Z]{1}$/`, with PCRE's `$` also matching before a final newline |
| Otp.OtpCode | affiliate_backend/app/Http/Controllers/Auth/User/UserAuthController.php:30 | the code for a draw n in 0..999999 has six characters, all decimal digits, and reads back as n |
| Otp.Issue | affiliate_backend/app/Http/Controllers/Auth/User/UserAuthController.php:33-37 | the issuing `update`: the new code, its expiry, and `is_verified` false, whatever the slot held before |
| Otp.Decide | affiliate_backend/app/Http/Controllers/Auth/User/UserAuthController.php:94-108 | the verdict: past the expiry is "expired" before the code is compared; then a code not strictly identical to the stored string is "invalid"; otherwise accepted |
| Otp.After | affiliate_backend/app/Http/Controllers/Auth/User/UserAuthController.php:110-115 | the slot after a verdict: an accepted code leaves it verified with no code and no expiry; a refused one leaves it unchanged |
| Otp.PastExpiry | affiliate_backend/app/Http/Controllers/Auth/User/UserAuthController.php:95 | `now()->gt($user->otp_expires_at)`: an expiry is set and now is strictly after it; a null expiry is never past |
| Otp.CodeIdentical | affiliate_backend/app/Http/Controllers/Auth/User/UserAuthController.php:103 | the negation of `$user->otp !== $request->otp`: a code is stored and the submission is that very string (a number never is) |
| Otp.SlotInvariantKept | affiliate_backend/app/Http/Controllers/Auth/User/UserAuthController.php:33-37 | issuing a six-digit code, and every verdict, keep the slot invariant: code and expiry are set together, the code is six digits, and a verified slot holds no code |
| Otp.IssuedCodeAcceptedUntilExpiry | affiliate_backend/app/Http/Controllers/Auth/User/UserAuthController.php:95-108 | on the model's whole-second clock, a freshly issued code is accepted exactly when now <= the expiry |
| Otp.ExpiredEvenForStoredCode | affiliate_backend/app/Http/Controllers/Auth/User/UserAuthController.php:95-100 | the expiry is checked first: past it, even the stored code is answered "expired", and the slot is unchanged |
| Otp.MismatchChangesNothing | affiliate_backend/app/Http/Controllers/Auth/User/UserAuthController.php:103-108 | a wrong code before the expiry is a mismatch and leaves the slot as it was |
| Otp.NoReplay | affiliate_backend/app/Http/Controllers/Auth/User/UserAuthController.php:111-115 | after an accepted code, any later submission of any value at any time is a mismatch |
| Otp.ReissueSupersedes | affiliate_backend/app/Http/Controllers/Auth/User/UserAuthController.php:33-37 | after a new code is issued, an old different code is never accepted |
| Otp.NumberNeverAccepted | affiliate_backend/app/Http/Controllers/Auth/User/UserAuthController.php:81-103 | a code submitted as a JSON number passes `numeric\|digits:6` but never strictly equals the stored string |
| Otp.CodelessSlotAcceptsNothing | affiliate_backend/app/Http/Controllers/Auth/User/UserAuthController.php:111-115 | a slot without a code accepts no request in any series of requests |
| Otp.AtMostOneAcceptance | affiliate_backend/app/Http/Controllers/Auth/User/UserAuthController.php:95-115 | in any series of requests against one issued code, at most one is accepted |
| Otp.AcceptedRequestCarriedTheCode | affiliate_backend/app/Http/Controllers/Auth/User/UserAuthController.php:95-108 | the accepted request in a series carried the issued code, no later than its expiry |
| Passwords.ClassesPresentCount | affiliate_backend/app/Http/Controllers/Auth/Admin/AdminProfileController.php:177-180 | the number of character classes present equals the number of the four `preg_match` tests that hit |
| Passwords.ComplexityScore | affiliate_backend/app/Http/Controllers/Auth/Admin/AdminProfileController.php:175-184 | the closure's counter ends equal to the number of classes (A-Z, a-z, 0-9, other) present in the password |
| Passwords.ScoreAtMostFour | affiliate_backend/app/Http/Controllers/Auth/Admin/AdminProfileController.php:176-180 | the complexity score never exceeds 4 |
| Passwords.PasswordGate | affiliate_backend/app/Http/Controllers/Auth/Admin/AdminProfileController.php:167-187 | the form passes iff: the current password is given; the new one is 6 to 24 characters from at least 3 classes and differs from it; the confirmation repeats it |
| Passwords.PasswordChangeValid | affiliate_backend/app/Http/Controllers/Auth/Admin/AdminProfileController.php:167-187 | the rules of `changePassword`: current password required; new password required, 6 to 24 characters, different from the current one, complexity at least 3; confirmation required and equal |
| Passwords.RichPasswordIsRequired | affiliate_backend/app/Http/Controllers/Auth/Admin/AdminProfileController.php:170-184 | a password with three classes always passes `required`, so that rule adds nothing to the gate |
| Passwords.AlphabetDistinct | affiliate_backend/app/Http/Controllers/Auth/Admin/AdminProfileController.php:210 | the alphabet has 88 pairwise distinct characters |
| Passwords.GenerateStrongPassword | affiliate_backend/app/Http/Controllers/Auth/Admin/AdminProfileController.php:208-212 | for any shuffle: the result has the requested length and uses only alphabet characters; up to length 88 no character repeats |
| Passwords.TemporaryPasswordMayBeWeak | affiliate_backend/app/Http/Controllers/Auth/User/UserAuthController.php:175 | some shuffle gives a 16-character temporary password of a single character class, which the change-password gate would refuse |
| Store.FindFirst | affiliate_backend/app/Http/Controllers/Auth/User/UserAuthController.php:85 | `where(...)->first()` returns the first matching row, or none when no row matches |
| Store.PasswordChecks | affiliate_backend/app/Http/Controllers/Auth/User/UserAuthController.php:285 | `Hash::check($plain, $column)`: a hash is stored and it is the hash of the plain password; a null column checks nothing |
| Store.PhoneLookupFinds | affiliate_backend/app/Http/Controllers/Auth/User/UserAuthController.php:85 | in a table the writes keep well formed, a phone lookup finds the one row with that phone |
| Store.FirstOrCreated | affiliate_backend/app/Http/Controllers/Auth/User/UserAuthController.php:27 | `firstOrCreate`: the row it returns carries the phone; an existing row is reused, otherwise a fresh row with only the phone is appended |
| Store.FirstOrCreatedFinds | affiliate_backend/app/Http/Controllers/Auth/User/UserAuthController.php:27 | `firstOrCreate` keeps every existing row and adds at most one, and a later phone lookup finds the row it returned |
| Store.IssuedCodeFoundByPhone | affiliate_backend/app/Http/Controllers/Auth/User/UserAuthController.php:27-37 | after `sendOtp`, the phone lookup of `verifyOtp` lands on the row holding the new slot |
| Store.WithSlot | affiliate_backend/app/Http/Controllers/Auth/User/UserAuthController.php:33-37 | one row's slot replaced; the table keeps its length and that row holds the new slot |
| Store.WithSlotKeepsOthers | affiliate_backend/app/Http/Controllers/Auth/User/UserAuthController.php:33-37 | a slot update changes only that row's slot and keeps the table well formed |
| Store.WithSlotKeepsLookups | affiliate_backend/app/Http/Controllers/Auth/User/UserAuthController.php:111-115 | a slot update changes no phone or e-mail, so every lookup lands where it did before |
| Store.Credentialed | affiliate_backend/app/Http/Controllers/Auth/User/UserAuthController.php:283-290 | a login that passes names a row with the address whose hash is that of the password, and no earlier row has the address; a login that fails leaves every row that would check shadowed by an earlier row with the address |
| Store.CredentialsAreUnique | affiliate_backend/app/Http/Controllers/Auth/User/UserAuthController.php:283-290 | two passwords that both pass the login for one address are the same password, and open the same row |
| Store.CredentialedIgnoresSlots | affiliate_backend/app/Http/Controllers/Auth/User/UserAuthController.php:283-290 | issuing or consuming a code never changes which address and password open which row |
| Store.AppendKeepsWellFormed | affiliate_backend/app/Http/Controllers/Auth/Admin/AdminProfileController.php:58-68 | a row with the next id, a well-formed slot and a new phone keeps the table well formed |
| Store.PrincipalTable.FirstOrCreate | affiliate_backend/app/Http/Controllers/Auth/User/UserAuthController.php:27 | returns the existing row for the phone, or appends a fresh row with only the phone; the table stays well formed |
| Store.PrincipalTable.IssueOtp | affiliate_backend/app/Http/Controllers/Auth/User/UserAuthController.php:33-37 | overwrites the row's slot with the new code, the new expiry and `is_verified` false; nothing else changes |
| Store.PrincipalTable.Attempt | affiliate_backend/app/Http/Controllers/Auth/User/UserAuthController.php:95-115 | returns the verdict: expiry first, then strict equality; only an accepted code writes, leaving the slot verified with no code and no expiry |
| Store.PrincipalTable.SetPassword | affiliate_backend/app/Http/Controllers/Auth/Admin/AdminProfileController.php:197-200 | replaces the row's hash and its `password_changed_at`; nothing else changes |
| Store.PrincipalTable.Insert | affiliate_backend/app/Http/Controllers/Auth/Admin/AdminProfileController.php:68 | appends the new row; the table stays well formed |
| Store.PrincipalTable.Save | affiliate_backend/app/Http/Controllers/Auth/User/UserAuthController.php:251 | replaces one row whose id, phone and slot are unchanged |
| Http.VerdictResponse | affiliate_backend/app/Http/Controllers/Auth/User/UserAuthController.php:95-108 | expired and mismatched codes are both 401; only an accepted code gets the success answer |
| UserAuth.SendOtp | affiliate_backend/app/Http/Controllers/Auth/User/UserAuthController.php:17-73 | an invalid phone gives 500 with nothing written. Otherwise the phone's row (found or created) gets the new code, expiry now + 300 s and `is_verified` false, and the answer is 200 with the mask, or 500 with the code kept if the SMS failed |
| UserAuth.VerifyOtpFormValid | affiliate_backend/app/Http/Controllers/Auth/User/UserAuthController.php:79-82 | the "invalid input" of `verifyOtp`: the phone is ten digits and the code six digits as a string |
| UserAuth.VerifiedUserResponse | affiliate_backend/app/Http/Controllers/Auth/User/UserAuthController.php:117-134 | the answer to an accepted phone code: a token with `registration_key` 1 exactly when the e-mail is truthy, else key 2 and no token; the two flows are stated by `RegisteredUserGoesToDashboard` and `NewPhoneCompletesRegistration` |
| UserAuth.VerifyOtp | affiliate_backend/app/Http/Controllers/Auth/User/UserAuthController.php:75-141 | invalid input gives 500 and an unknown phone 404, both with nothing written. Otherwise the answer follows the verdict, and only an accepted code writes |
| UserAuth.LoginFormValid | affiliate_backend/app/Http/Controllers/Auth/User/UserAuthController.php:277-280 | the "invalid input" of `login`: a required, e-mail-shaped address and a required password of at least 6 characters |
| UserAuth.Login | affiliate_backend/app/Http/Controllers/Auth/User/UserAuthController.php:274-327 | invalid input gives 422. An unknown address or a wrong password gives 401, with nothing written in either case. Otherwise a 600 s code is stored, then mailed (200) or not (500, code kept) |
| UserAuth.LoginVerifyFormValid | affiliate_backend/app/Http/Controllers/Auth/User/UserAuthController.php:331-334 | the "invalid input" of `login_verify`: a required, e-mail-shaped address and a code that arrives as a string of six digits |
| UserAuth.LoginVerify | affiliate_backend/app/Http/Controllers/Auth/User/UserAuthController.php:328-382 | invalid input (the code must be a six-digit string) gives 500, an unknown address 404. Otherwise the answer follows the verdict, and success carries a token |
| UserAuth.RegistrationValid | affiliate_backend/app/Http/Controllers/Auth/User/UserAuthController.php:156-173 | the rules of `register` on the kept fields, `unique:users,email,<id>` checked against the other rows; the date, GST and upload rules are one flag |
| UserAuth.Register | affiliate_backend/app/Http/Controllers/Auth/User/UserAuthController.php:143-266 | the lookup comes before validation (404, then 500). A failed mail gives 500 with nothing saved. Otherwise the row gets the hashed generated password, the normalised address and the profile fields, and the answer is 201 with a token |
| UserAuth.RegisteredPrincipal | affiliate_backend/app/Http/Controllers/Auth/User/UserAuthController.php:175-190 | the row `register` saves: the hash of the generated password, `strtolower(trim(email))`, and the profile columns; id, phone and OTP slot untouched |
| UserAuth.RegisteredEmailIsTruthy | affiliate_backend/app/Http/Controllers/Auth/User/UserAuthController.php:180 | a validated address stays truthy after `strtolower(trim(...))` |
| UserAuth.RegisteredUserGoesToDashboard | affiliate_backend/app/Http/Controllers/Auth/User/UserAuthController.php:118-127 | once registered, a user who verifies a phone code gets a token and `registration_key` 1 |
| UserAuth.NewPhoneCompletesRegistration | affiliate_backend/app/Http/Controllers/Auth/User/UserAuthController.php:27-37 | a phone `sendOtp` has just created a row for, verified with its code in time, is found by the lookup and gets 200 with `registration_key` 2 and no token (the new row has no e-mail) |
| UserAuth.RegisteredPasswordOpensLogin | affiliate_backend/app/Http/Controllers/Auth/User/UserAuthController.php:175-180 | after `register` saves row k, the e-mail login with the normalised address opens row k with the mailed password and with no other, provided no other row holds the normalised address |
| UserAuth.IssuedCodePassesValidation | affiliate_backend/app/Http/Controllers/Auth/User/UserAuthController.php:81 | every issued code passes `required\|digits:6` |
| UserAuth.SendThenVerifyTwice | affiliate_backend/app/Http/Controllers/Auth/User/UserAuthController.php:17-141 | a code sent by `sendOtp` is accepted (200) within five minutes, and the same code sent again is refused with 401 "invalid" |
| AdminAuth.SendOtp | affiliate_backend/app/Http/Controllers/Auth/Admin/AdminAuthController.php:17-72 | as the user `sendOtp`, on the admins table |
| AdminAuth.AdminSignedIn | affiliate_backend/app/Http/Controllers/Auth/Admin/AdminAuthController.php:101-108 | the answer to an admin's accepted code: 200 with an admin token for that row, no registration key |
| AdminAuth.VerifyOtp | affiliate_backend/app/Http/Controllers/Auth/Admin/AdminAuthController.php:73-108 | invalid input gives 422, and an unknown phone gives 401 like a bad code. Otherwise the answer follows the verdict, and only an accepted code writes |
| AdminAuth.AdminLoginFormValid | affiliate_backend/app/Http/Controllers/Auth/Admin/AdminAuthController.php:113-116 | the "invalid input" of `adminlogin`: a required, e-mail-shaped address and a required password of at least 6 characters |
| AdminAuth.AdminLogin | affiliate_backend/app/Http/Controllers/Auth/Admin/AdminAuthController.php:110-163 | 422, then 401 for an unknown address or a wrong password with nothing written, else a 600 s code stored and mailed (200) or not (500) |
| AdminAuth.AdminLoginVerifyFormValid | affiliate_backend/app/Http/Controllers/Auth/Admin/AdminAuthController.php:167-170 | the "invalid input" of the admin `login_verify`: a required, e-mail-shaped address and a six-character string code, digits or not |
| AdminAuth.LoginVerify | affiliate_backend/app/Http/Controllers/Auth/Admin/AdminAuthController.php:165-212 | invalid input (`size:6`: six characters, digits or not) gives 422. An unknown address gives 401. Otherwise the answer follows the verdict |
| AdminAuth.HasRole | affiliate_backend/app/Http/Controllers/Auth/Admin/AdminAuthController.php:231-249 | the `switch ($admin->role)` case test: the role is present and loosely equals n |
| AdminAuth.WithRoleIn | affiliate_backend/app/Http/Controllers/Auth/Admin/AdminAuthController.php:234 | `whereIn('role', ...)` returns exactly the rows whose role is in the set, each as often as in the table, and no more rows than the table holds |
| AdminAuth.VisibleAdminRoles | affiliate_backend/app/Http/Controllers/Auth/Admin/AdminAuthController.php:232-249 | the admin roles each case lists: 1, 2 and 3 for the super admin, its own role for roles 2 and 3 |
| AdminAuth.RolesExclusive | affiliate_backend/app/Http/Controllers/Auth/Admin/AdminAuthController.php:231-249 | a role loosely equals at most one number, so the `switch` cases never overlap |
| AdminAuth.DashboardRefusesUnknownRoles | affiliate_backend/app/Http/Controllers/Auth/Admin/AdminAuthController.php:214-258 | the dashboard answers 200 exactly to an authenticated admin whose role is loosely 1, 2 or 3; everyone else gets 403 |
| AdminAuth.DashboardScope | affiliate_backend/app/Http/Controllers/Auth/Admin/AdminAuthController.php:231-249 | role 1 sees the admins of roles 1 to 3, roles 2 and 3 see the admins of their own role, and only role 2 also gets every user |
| AdminAuth.LowerRolesSeeOnlyTheirOwn | affiliate_backend/app/Http/Controllers/Auth/Admin/AdminAuthController.php:238-249 | an admin of role 2 or 3 is shown only admins of that role, never a super admin |
| AdminAuth.Dashboard | affiliate_backend/app/Http/Controllers/Auth/Admin/AdminAuthController.php:214-258 | no admin gives "not authenticated"; roles loosely 1, 2, 3 get their lists, and only role 2 the users; any other role gets "invalid role" |
| AdminProfile.AdminStore | affiliate_backend/app/Http/Controllers/Auth/Admin/AdminProfileController.php:16-80 | invalid input gives 500. A failed mail gives 500 with no row created. Otherwise one admin row is appended (the submitted role, the hash of the mailed password) and the answer is 201 |
| AdminProfile.NewAdminValid | affiliate_backend/app/Http/Controllers/Auth/Admin/AdminProfileController.php:20-29 | the rules of `adminstore`, with the three `unique` rules checked against the admins table |
| AdminProfile.NewAdmin | affiliate_backend/app/Http/Controllers/Auth/Admin/AdminProfileController.php:58-68 | the admin row `adminstore` saves: next id, submitted phone, address and role, the hash of the mailed password, no OTP issued, the profile columns |
| AdminProfile.CreatedAdminSeesDashboard | affiliate_backend/app/Http/Controllers/Auth/Admin/AdminProfileController.php:24 | every role `in:1,2,3` admits matches a dashboard case, so a created admin is never refused with "invalid role" |
| AdminProfile.CreatedAdminPasswordChecks | affiliate_backend/app/Http/Controllers/Auth/Admin/AdminProfileController.php:20-68 | in the table `adminstore` leaves, the mailed password passes the admin login's `min:6` and opens the new row, and no other password does; validation made the address new |
| AdminProfile.MailedPasswordRejectedAsWritten | affiliate_backend/app/Http/Controllers/Auth/Admin/AdminProfileController.php:137 | as written, with no `randomPassword` field, the login for the new user's address refuses the mailed password and every password of 6 or more characters |
| AdminProfile.MailedPasswordAcceptedAsIntended | affiliate_backend/app/Http/Controllers/Auth/Admin/AdminProfileController.php:104-141 | with the hash of the mailed password, the login for the new user's address opens the new row with that password and with no other |
| AdminProfile.StoreUser | affiliate_backend/app/Http/Controllers/Auth/Admin/AdminProfileController.php:83-153 | no caller, or a role that is not strictly "2", gives 403 and nothing is created. Invalid input gives 500, as does a failed mail, with nothing written. Otherwise a user is appended, verified, linked to its creator, with the hash of the request's `randomPassword` field (of "" when absent); the answer is 201 |
| AdminProfile.MayCreateUsers | affiliate_backend/app/Http/Controllers/Auth/Admin/AdminProfileController.php:89 | the negation of `$admin->role !== '2'`: the role is strictly the string "2" |
| AdminProfile.NewUserValid | affiliate_backend/app/Http/Controllers/Auth/Admin/AdminProfileController.php:96-102 | the rules of `store`, with the two `unique` rules checked against the users table |
| AdminProfile.NewUser | affiliate_backend/app/Http/Controllers/Auth/Admin/AdminProfileController.php:132-141 | the user row `store` saves: next id, submitted phone and address, the given hash, verified with no code, linked to its creator, the profile columns |
| AdminProfile.UserPasswordAsWritten | affiliate_backend/app/Http/Controllers/Auth/Admin/AdminProfileController.php:137 | `Hash::make($request->randomPassword)`: the hash of the request field, of "" when it is absent |
| AdminProfile.StoreGateStricterThanDashboard | affiliate_backend/app/Http/Controllers/Auth/Admin/AdminProfileController.php:89 | the strict `!== '2'` accepts only roles the dashboard treats as 2, while the number 2 and "02" get the support dashboard but may not create users |
| AdminProfile.ChangePassword | affiliate_backend/app/Http/Controllers/Auth/Admin/AdminProfileController.php:155-206 | no caller gives 401; a failed rule 422. A wrong current password gives 422 with nothing written. Otherwise the hash of the new password and the change time are stored and the answer is 200 |
| AdminProfile.ChangedPasswordOpensLogin | affiliate_backend/app/Http/Controllers/Auth/Admin/AdminProfileController.php:197-200 | after a change, the admin's login accepts the new password and refuses the previous one |

## Left out

- SMS gateway and mail I/O: each is a boolean `delivered` parameter. The request payloads and message texts are not modelled.
- JWT minting and `Auth::guard(...)`: a token is an opaque `Token(table, id)`. The authenticated admin is an index into the admins table. `logout` and `AdminMiddleware.php` delegate to the guard and are not modelled.
- `Hash::make` / `Hash::check`: an injective tag compared for equality. Salting and bcrypt are not modelled.
- `random_int`, `str_shuffle`, `now()`: parameters.
- AdminProfile.ChangePassword: stores the change time as an instant. The source stores `now()->setTimezone('Asia/Kolkata')`, which Eloquent writes as Kolkata wall-clock time, so unless `app.timezone` is Asia/Kolkata the column reads back shifted by the offset.
- Store.FindFirst: `->first()` is taken to return the lowest id. The queries have no `orderBy`, so SQL promises no order. Phone lookups are unaffected, because phones are unique; e-mail lookups differ only where two rows share an address.
- Laravel's global middleware `TrimStrings` and `ConvertEmptyStringsToNull` is not modelled: every input is taken as submitted. With the default middleware every field except `current_password`, `password` and `password_confirmation` arrives trimmed, and blank fields arrive as null.
- AdminProfile.ChangePassword: checks `new_password` untrimmed. A default application trims it first, so for `new_password = "abcDEF "` the model counts three classes and stores `HashOf("abcDEF ")`, while the application sees `"abcDEF"`, counts two, and answers 422.
- AdminProfile.ChangedPasswordOpensLogin: holds for the password as the model stores it. With `TrimStrings`, a new password with a leading or trailing blank is stored trimmed, while the login's `password` field is not trimmed, so typing the password as chosen does not open the login.
- The file uploads, `dob_or_incorporation` (`date`), and `gst_details` in `register`: filesystem I/O and date parsing. Their rules are summarised by one `otherRulesHold` parameter, and their columns are not stored.
- Validation.EmailShaped: approximates Laravel's RFC 5322 `email` rule by exactly one '@' with text on both sides.
- Php.IsDigitString: PHP numeric strings with signs, blanks, decimals or exponents are not modelled; only runs of digits compare by value.
- Request fields other than the OTP, `role` and `randomPassword` are taken as strings. A phone sent as a JSON number is represented by its digits.
- AdminAuth.HasRole: the SQL comparisons of `whereIn('role', ...)` / `where('role', ...)` are modelled with the same loose comparison as the PHP `switch`. Column types and database collation (case-insensitive e-mail matching) are not modelled; e-mail lookups compare exactly.
- Otp.IssuedCodeAcceptedUntilExpiry: the clock is whole seconds. In the source `now()` carries microseconds while `otp_expires_at` is stored to the second, so a code already counts as expired just after its expiry second begins; the model accepts it for that whole second.
- Carbon version: `Otp.PastExpiry`, and with it `Otp.NoReplay`, takes `now()->gt(null)` to compare with the current time, as Carbon 2's untyped `gt` does. The Carbon version is not recorded in the files modelled.
- UserAuth.RegisteredPasswordOpensLogin: `unique:users,email,<id>` checks the address as submitted, while `register` saves `strtolower(trim(...))` of it. With the model's exact comparison these can differ, so the lemma assumes the normalised address is free; a case-insensitive database collation would make the two checks agree.
- Concurrency: requests are sequential. The code takes no lock on the OTP slot.
- Columns the controllers write but never read back (`designation`, `department`, the profile fields) go into a `profile` map and nothing is proved about them beyond being stored.

## Findings

| source | as written | input that shows it | evidently intended | confidence | as-written member | corrected member |
|---|---|---|---|---|---|---|
| affiliate_backend/app/Http/Controllers/Auth/Admin/AdminProfileController.php:137 | the new user's hash is `Hash::make($request->randomPassword)`, a request field normally absent, so it hashes the empty string | a role-"2" admin posts a valid user form without a `randomPassword` field; the mailed 16-character password then fails `Hash::check`, and so does every password the login's `min:6` admits | hash the generated `$randomPassword` that the mail announced | not executed | AdminProfile.MailedPasswordRejectedAsWritten | AdminProfile.MailedPasswordAcceptedAsIntended |
