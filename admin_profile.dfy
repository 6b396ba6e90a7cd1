/**
 * `AdminProfileController`: an admin creating another admin (`adminstore`),
 * a support admin creating a user (`store`), and an admin changing their own
 * password (`changePassword`).  Both creations mail a generated temporary
 * password before anything is saved.
 */
module AdminProfile {
  import opened Wrappers
  import opened Strings
  import opened Php
  import opened Validation
  import opened Otp
  import opened Passwords
  import opened Store
  import opened Http
  import opened AdminAuth

  /** The fields of `adminstore`. */
  datatype NewAdminForm = NewAdminForm(
    fullName: string,
    email: string,
    phone: string,
    role: Scalar,
    gender: string,
    designation: string,
    department: string,
    employeeId: string)

  /** `unique:admins,employee_id` */
  predicate EmployeeIdFree(admins: seq<Principal>, employeeId: string) {
    forall j :: 0 <= j < |admins| && "employee_id" in admins[j].profile ==>
      admins[j].profile["employee_id"] != Str(employeeId)
  }

  /** The rules of `adminstore`, the three `unique` rules checked against the admins table. */
  predicate NewAdminValid(admins: seq<Principal>, f: NewAdminForm) {
    && Required(f.fullName) && MaxLength(f.fullName, 255)
    && Required(f.email) && EmailShaped(f.email) && FindFirst(admins, ByEmail(f.email)).None?
    && Required(f.phone) && FindFirst(admins, ByPhone(f.phone)).None?
    && Required(ToString(f.role)) && InRule(f.role, ["1", "2", "3"])
    && Required(f.gender) && InRule(Str(f.gender), ["Male", "Female", "Other"])
    && Required(f.designation) && MaxLength(f.designation, 255)
    && Required(f.department) && MaxLength(f.department, 255)
    && Required(f.employeeId) && EmployeeIdFree(admins, f.employeeId)
  }

  /** The admin row `adminstore` saves: role as submitted, a hash of the mailed password, no OTP issued. */
  function NewAdmin(id: nat, f: NewAdminForm, password: string): Principal {
    Principal(id, f.phone, Some(f.email), Some(HashOf(password)), None, Some(f.role), None, Unissued,
      map["full_name" := Str(f.fullName), "gender" := Str(f.gender), "designation" := Str(f.designation),
          "department" := Str(f.department), "employee_id" := Str(f.employeeId)])
  }

  /**
   * `adminstore`: validation (a failure is caught as a 500), then the mail
   * with the temporary password, and only after it went out the new row.
   */
  method AdminStore(admins: PrincipalTable, f: NewAdminForm, shuffle: seq<nat>, delivered: bool) returns (r: Response)
    requires admins.Valid()
    requires IsPermutation(shuffle, PoolSize(TemporaryPasswordLength))
    modifies admins
    ensures admins.Valid()
    ensures !NewAdminValid(old(admins.records), f) ==>
      r == Response(500, ServerError) && admins.records == old(admins.records)
    ensures NewAdminValid(old(admins.records), f) && !delivered ==>
      r == Response(500, DeliveryFailed) && admins.records == old(admins.records)
    ensures NewAdminValid(old(admins.records), f) && delivered ==>
      && admins.records == old(admins.records) +
           [NewAdmin(|old(admins.records)| + 1, f, GenerateStrongPassword(TemporaryPasswordLength, shuffle))]
      && r == Response(201, Created)
  {
    if !NewAdminValid(admins.records, f) {
      return Response(500, ServerError);
    }
    var password := GenerateStrongPassword(TemporaryPasswordLength, shuffle);
    if !delivered {
      return Response(500, DeliveryFailed);
    }
    admins.Insert(NewAdmin(|admins.records| + 1, f, password));
    r := Response(201, Created);
  }

  /**
   * The `in:1,2,3` rule and the dashboard's `switch` agree: an admin created
   * by `adminstore` is shown the dashboard of the role it was given.
   */
  lemma CreatedAdminSeesDashboard(id: nat, f: NewAdminForm, password: string, admins: seq<Principal>, users: seq<Principal>)
    requires InRule(f.role, ["1", "2", "3"])
    ensures exists n :: n in {1, 2, 3} && HasRole(NewAdmin(id, f, password), n)
    ensures DashboardStatus(Dashboard(Some(NewAdmin(id, f, password)), admins, users)) == 200
  {
    var a := NewAdmin(id, f, password);
    var o :| o in ["1", "2", "3"] && LooseEqualStrings(ToString(f.role), o);
    var n: nat := if o == "1" then 1 else if o == "2" then 2 else 3;
    assert o == DecimalString(n);
    LooseStringsAgreeWithInt(f.role, n);
    assert HasRole(a, n);
    DashboardRefusesUnknownRoles(Some(a), admins, users);
  }

  /**
   * In the table `adminstore` leaves, the mailed temporary password passes
   * the admin login's length rule and opens the new row, and no other
   * password does: validation made the address new.
   */
  lemma CreatedAdminPasswordChecks(admins: seq<Principal>, f: NewAdminForm, shuffle: seq<nat>, other: string)
    requires NewAdminValid(admins, f)
    requires IsPermutation(shuffle, PoolSize(TemporaryPasswordLength))
    ensures var pw := GenerateStrongPassword(TemporaryPasswordLength, shuffle);
      var after := admins + [NewAdmin(|admins| + 1, f, pw)];
      && |pw| >= 6
      && Credentialed(after, f.email, pw) == Some(|admins|)
      && (other != pw ==> Credentialed(after, f.email, other).None?)
  {
    var pw := GenerateStrongPassword(TemporaryPasswordLength, shuffle);
    CredentialedAppend(admins, NewAdmin(|admins| + 1, f, pw), f.email, pw);
    CredentialedAppend(admins, NewAdmin(|admins| + 1, f, pw), f.email, other);
  }

  /** The fields of `store`; `randomPassword` is the request field of that name, normally absent. */
  datatype NewUserForm = NewUserForm(
    fullName: string,
    phone: string,
    userType: string,
    email: string,
    pan: string,
    randomPassword: Option<string>)

  /** `$admin->role !== '2'` negated: strictly the string "2". */
  predicate MayCreateUsers(a: Principal) {
    a.role == Some(Str("2"))
  }

  /** The rules of `store`, the two `unique` rules checked against the users table. */
  predicate NewUserValid(users: seq<Principal>, f: NewUserForm) {
    && Required(f.fullName) && MaxLength(f.fullName, 255)
    && Required(f.phone) && FindFirst(users, ByPhone(f.phone)).None?
    && Required(f.userType) && InRule(Str(f.userType), ["2", "3"])
    && Required(f.email) && EmailShaped(f.email) && FindFirst(users, ByEmail(f.email)).None?
    && Required(f.pan) && PanRule(f.pan)
  }

  /** The user row `store` saves, given the hash it stores. */
  function NewUser(id: nat, f: NewUserForm, hash: PasswordHash, creator: nat): Principal {
    Principal(id, f.phone, Some(f.email), Some(hash), None, None, Some(creator), Consumed,
      map["full_name" := Str(f.fullName), "user_type" := Str(f.userType), "pan_number" := Str(f.pan)])
  }

  /** `Hash::make($request->randomPassword)`, as written: the request field, `null` hashing as "". */
  function UserPasswordAsWritten(f: NewUserForm): PasswordHash {
    HashOf(f.randomPassword.GetOr(""))
  }

  /**
   * As written, a user created without a `randomPassword` field cannot log
   * in: the stored hash is that of the empty string, so neither the mailed
   * 16-character password nor any password the login's `min:6` admits opens
   * the new row.
   */
  lemma MailedPasswordRejectedAsWritten(users: seq<Principal>, f: NewUserForm, creator: nat, shuffle: seq<nat>,
                                        password: string)
    requires NewUserValid(users, f) && f.randomPassword.None?
    requires IsPermutation(shuffle, PoolSize(TemporaryPasswordLength))
    requires |password| >= 6
    ensures var after := users + [NewUser(|users| + 1, f, UserPasswordAsWritten(f), creator)];
      && Credentialed(after, f.email, GenerateStrongPassword(TemporaryPasswordLength, shuffle)).None?
      && Credentialed(after, f.email, password).None?
  {
    var row := NewUser(|users| + 1, f, UserPasswordAsWritten(f), creator);
    CredentialedAppend(users, row, f.email, GenerateStrongPassword(TemporaryPasswordLength, shuffle));
    CredentialedAppend(users, row, f.email, password);
  }

  /**
   * With the evidently intended hash, that of the password the mail
   * announced, the new user's login opens with the mailed password and with
   * no other.
   */
  lemma MailedPasswordAcceptedAsIntended(users: seq<Principal>, f: NewUserForm, creator: nat, shuffle: seq<nat>,
                                         other: string)
    requires NewUserValid(users, f)
    requires IsPermutation(shuffle, PoolSize(TemporaryPasswordLength))
    ensures var pw := GenerateStrongPassword(TemporaryPasswordLength, shuffle);
      var after := users + [NewUser(|users| + 1, f, HashOf(pw), creator)];
      && |pw| >= 6
      && Credentialed(after, f.email, pw) == Some(|users|)
      && (other != pw ==> Credentialed(after, f.email, other).None?)
  {
    var pw := GenerateStrongPassword(TemporaryPasswordLength, shuffle);
    CredentialedAppend(users, NewUser(|users| + 1, f, HashOf(pw), creator), f.email, pw);
    CredentialedAppend(users, NewUser(|users| + 1, f, HashOf(pw), creator), f.email, other);
  }

  /**
   * `store`: the role gate (403, nothing created) before validation (a
   * failure is caught as a 500), then the mail, then the user row, verified
   * and linked to its creator.  The stored hash is that of the request's
   * `randomPassword` field, not of the password the mail announced.
   */
  method StoreUser(admins: PrincipalTable, users: PrincipalTable, caller: Option<nat>, f: NewUserForm,
                   shuffle: seq<nat>, delivered: bool)
    returns (r: Response)
    requires admins != users
    requires users.Valid()
    requires caller.Some? ==> caller.value < |admins.records|
    requires IsPermutation(shuffle, PoolSize(TemporaryPasswordLength))
    modifies users
    ensures users.Valid()
    ensures caller.None? || !MayCreateUsers(admins.records[caller.value]) ==>
      r == Response(403, Forbidden) && users.records == old(users.records)
    ensures caller.Some? && MayCreateUsers(admins.records[caller.value]) ==>
      && (!NewUserValid(old(users.records), f) ==>
           r == Response(500, ServerError) && users.records == old(users.records))
      && (NewUserValid(old(users.records), f) && !delivered ==>
           r == Response(500, DeliveryFailed) && users.records == old(users.records))
      && (NewUserValid(old(users.records), f) && delivered ==>
           && users.records == old(users.records) +
                [NewUser(|old(users.records)| + 1, f, UserPasswordAsWritten(f), admins.records[caller.value].id)]
           && r == Response(201, Created))
  {
    if caller.None? || !MayCreateUsers(admins.records[caller.value]) {
      return Response(403, Forbidden);
    }
    var admin := admins.records[caller.value];
    if !NewUserValid(users.records, f) {
      return Response(500, ServerError);
    }
    var password := GenerateStrongPassword(TemporaryPasswordLength, shuffle);
    // `password` only goes into the mail; `filled('email')` holds here, as it
    // is the `required` rule just passed.
    if !delivered {
      return Response(500, DeliveryFailed);
    }
    users.Insert(NewUser(|users.records| + 1, f, UserPasswordAsWritten(f), admin.id));
    r := Response(201, Created);
  }

  /**
   * The two role tests disagree: a role stored as the number 2 gets the
   * support dashboard, with every user, but may not create users, and a
   * role "02" passes the dashboard switch but not the strict test either.
   */
  lemma StoreGateStricterThanDashboard(a: Principal)
    ensures MayCreateUsers(a) ==> HasRole(a, 2)
    ensures a.role == Some(Int(2)) ==> HasRole(a, 2) && !MayCreateUsers(a)
    ensures a.role == Some(Str("02")) ==> HasRole(a, 2) && !MayCreateUsers(a)
  {
    assert DigitsValue("2") == 2 by {
      assert "2"[..0] == [];
    }
    if a.role == Some(Str("02")) {
      assert "02"[..1] == "0";
      assert "0"[..0] == [];
      assert DigitsValue("02") == 2;
    }
  }

  /**
   * `changePassword`: no admin is a 401; a failed rule a 422; a current
   * password that does not check a 422 with nothing written; otherwise the
   * new hash and the change time.  The complexity rule runs as the
   * controller's closure does, by counting.
   */
  method ChangePassword(admins: PrincipalTable, caller: Option<nat>, f: PasswordChangeForm, now: int)
    returns (r: Response)
    requires admins.Valid()
    requires caller.Some? ==> caller.value < |admins.records|
    modifies admins
    ensures admins.Valid()
    ensures caller.None? ==> r == Response(401, Unauthorized) && admins.records == old(admins.records)
    ensures caller.Some? && !PasswordChangeValid(f) ==>
      r == Response(422, Invalid) && admins.records == old(admins.records)
    ensures caller.Some? && PasswordChangeValid(f) &&
            !PasswordChecks(f.currentPassword, old(admins.records)[caller.value].password) ==>
      r == Response(422, WrongCurrentPassword) && admins.records == old(admins.records)
    ensures caller.Some? && PasswordChangeValid(f) &&
            PasswordChecks(f.currentPassword, old(admins.records)[caller.value].password) ==>
      && admins.records == old(admins.records)[caller.value :=
           old(admins.records)[caller.value].(password := Some(HashOf(f.newPassword)), passwordChangedAt := Some(now))]
      && r == Response(200, PasswordChanged)
  {
    if caller.None? {
      return Response(401, Unauthorized);
    }
    var k := caller.value;
    var complexity := ComplexityScore(f.newPassword);
    var valid :=
      && Required(f.currentPassword)
      && Required(f.newPassword) && 6 <= |f.newPassword| <= 24 && f.newPassword != f.currentPassword
      && complexity >= 3
      && Required(f.confirmation) && f.confirmation == f.newPassword;
    if !valid {
      return Response(422, Invalid);
    }
    if !PasswordChecks(f.currentPassword, admins.records[k].password) {
      return Response(422, WrongCurrentPassword);
    }
    admins.SetPassword(k, HashOf(f.newPassword), now);
    r := Response(200, PasswordChanged);
  }

  /**
   * After a successful change the admin's e-mail login accepts the new
   * password and no longer the current one; no other row changes.
   */
  lemma ChangedPasswordOpensLogin(rs: seq<Principal>, k: nat, f: PasswordChangeForm, now: int)
    requires k < |rs| && rs[k].email.Some?
    requires FindFirst(rs, ByEmail(rs[k].email.value)) == Some(k)
    requires PasswordChangeValid(f)
    ensures var after := rs[k := rs[k].(password := Some(HashOf(f.newPassword)), passwordChangedAt := Some(now))];
      && Credentialed(after, rs[k].email.value, f.newPassword) == Some(k)
      && Credentialed(after, rs[k].email.value, f.currentPassword).None?
  {
    var after := rs[k := rs[k].(password := Some(HashOf(f.newPassword)), passwordChangedAt := Some(now))];
    var email := rs[k].email.value;
    assert forall j :: 0 <= j < |rs| ==> (Matches(after[j], ByEmail(email)) <==> Matches(rs[j], ByEmail(email)));
    SameMatchesSameFirst(rs, after, ByEmail(email));
  }
}
