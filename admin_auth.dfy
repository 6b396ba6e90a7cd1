/**
 * `AdminAuthController`: the same OTP flows on the admins table, with
 * different error answers (validation outside the `try` gives 422 in
 * `verifyOtp` and `login_verify`; an unknown admin is a 401), and the
 * role-dependent dashboard.
 */
module AdminAuth {
  import opened Wrappers
  import opened Strings
  import opened Php
  import opened Validation
  import opened Otp
  import opened Store
  import opened Http

  /** `sendOtp`: identical to the users' flow, on the admins table. */
  method SendOtp(admins: PrincipalTable, phone: string, draw: Draw, now: int, delivered: bool) returns (r: Response)
    requires admins.Valid()
    modifies admins
    ensures admins.Valid()
    ensures !PhoneRule(phone) ==> r == Response(500, ServerError) && admins.records == old(admins.records)
    ensures PhoneRule(phone) ==>
      var at := FirstOrCreated(old(admins.records), phone);
      && admins.records == WithSlot(at.records, at.index, Issue(OtpCode(draw), now + RegistrationWindow))
      && r == if delivered then Response(200, OtpSent(Some(MaskPhone(phone)))) else Response(500, DeliveryFailed)
  {
    if !PhoneRule(phone) {
      return Response(500, ServerError);
    }
    var k := admins.FirstOrCreate(phone);
    admins.IssueOtp(k, OtpCode(draw), now + RegistrationWindow);
    if !delivered {
      return Response(500, DeliveryFailed);
    }
    r := Response(200, OtpSent(Some(MaskPhone(phone))));
  }

  /** The answer to an admin's accepted code: always a token. */
  function AdminSignedIn(p: Principal): Response {
    Response(200, Authenticated(Token(AdminAccount, p.id), None))
  }

  /**
   * `verifyOtp`: a failed rule is a 422; an unknown phone is a 401, as are an
   * expired and a wrong code.
   */
  method VerifyOtp(admins: PrincipalTable, phone: string, otp: Scalar, now: int) returns (r: Response)
    requires admins.Valid()
    modifies admins
    ensures admins.Valid()
    ensures !(PhoneRule(phone) && DigitsRule(otp, 6)) ==>
      r == Response(422, Invalid) && admins.records == old(admins.records)
    ensures PhoneRule(phone) && DigitsRule(otp, 6) && FindFirst(old(admins.records), ByPhone(phone)).None? ==>
      r == Response(401, UnknownPrincipal) && admins.records == old(admins.records)
    ensures PhoneRule(phone) && DigitsRule(otp, 6) && FindFirst(old(admins.records), ByPhone(phone)).Some? ==>
      var k := FindFirst(old(admins.records), ByPhone(phone)).value;
      var v := Decide(old(admins.records)[k].slot, otp, now);
      && admins.records == (if v == Accepted then WithSlot(old(admins.records), k, Consumed) else old(admins.records))
      && r == VerdictResponse(v, AdminSignedIn(old(admins.records)[k]))
  {
    if !(PhoneRule(phone) && DigitsRule(otp, 6)) {
      return Response(422, Invalid);
    }
    var found := FindFirst(admins.records, ByPhone(phone));
    if found.None? {
      return Response(401, UnknownPrincipal);
    }
    var k := found.value;
    var admin := admins.records[k];
    var v := admins.Attempt(k, otp, now);
    r := VerdictResponse(v, AdminSignedIn(admin));
  }

  /** `email` `required|email`, `password` `required|string|min:6`. */
  predicate AdminLoginFormValid(email: string, password: string) {
    Required(email) && EmailShaped(email) && Required(password) && |password| >= 6
  }

  /** `adminlogin`: the users' `login` on the admins table. */
  method AdminLogin(admins: PrincipalTable, email: string, password: string, draw: Draw, now: int, delivered: bool)
    returns (r: Response)
    requires admins.Valid()
    modifies admins
    ensures admins.Valid()
    ensures !AdminLoginFormValid(email, password) ==>
      r == Response(422, Invalid) && admins.records == old(admins.records)
    ensures AdminLoginFormValid(email, password) && Credentialed(old(admins.records), email, password).None? ==>
      r == Response(401, BadCredentials) && admins.records == old(admins.records)
    ensures AdminLoginFormValid(email, password) && Credentialed(old(admins.records), email, password).Some? ==>
      var k := Credentialed(old(admins.records), email, password).value;
      && admins.records == WithSlot(old(admins.records), k, Issue(OtpCode(draw), now + LoginWindow))
      && r == if delivered then Response(200, OtpSent(None)) else Response(500, DeliveryFailed)
  {
    if !AdminLoginFormValid(email, password) {
      return Response(422, Invalid);
    }
    var found := FindFirst(admins.records, ByEmail(email));
    if found.None? || !PasswordChecks(password, admins.records[found.value].password) {
      return Response(401, BadCredentials);
    }
    admins.IssueOtp(found.value, OtpCode(draw), now + LoginWindow);
    if !delivered {
      return Response(500, DeliveryFailed);
    }
    r := Response(200, OtpSent(None));
  }

  /** `email` `required|email`, `otp` `required|string|size:6`: six characters, not necessarily digits. */
  predicate AdminLoginVerifyFormValid(email: string, otp: Scalar) {
    Required(email) && EmailShaped(email) && otp.Str? && Required(otp.s) && |otp.s| == 6
  }

  /** `login_verify` on the admins table: 422, then 401 for an unknown address, then the verdict. */
  method LoginVerify(admins: PrincipalTable, email: string, otp: Scalar, now: int) returns (r: Response)
    requires admins.Valid()
    modifies admins
    ensures admins.Valid()
    ensures !AdminLoginVerifyFormValid(email, otp) ==>
      r == Response(422, Invalid) && admins.records == old(admins.records)
    ensures AdminLoginVerifyFormValid(email, otp) && FindFirst(old(admins.records), ByEmail(email)).None? ==>
      r == Response(401, UnknownPrincipal) && admins.records == old(admins.records)
    ensures AdminLoginVerifyFormValid(email, otp) && FindFirst(old(admins.records), ByEmail(email)).Some? ==>
      var k := FindFirst(old(admins.records), ByEmail(email)).value;
      var v := Decide(old(admins.records)[k].slot, otp, now);
      && admins.records == (if v == Accepted then WithSlot(old(admins.records), k, Consumed) else old(admins.records))
      && r == VerdictResponse(v, AdminSignedIn(old(admins.records)[k]))
  {
    if !AdminLoginVerifyFormValid(email, otp) {
      return Response(422, Invalid);
    }
    var found := FindFirst(admins.records, ByEmail(email));
    if found.None? {
      return Response(401, UnknownPrincipal);
    }
    var k := found.value;
    var admin := admins.records[k];
    var v := admins.Attempt(k, otp, now);
    r := VerdictResponse(v, AdminSignedIn(admin));
  }

  /** `$admin->role == $n` as the `switch` tests it; a missing role matches no case. */
  predicate HasRole(p: Principal, n: nat) {
    p.role.Some? && LooseEqualsInt(p.role.value, n)
  }

  /** Some role in `roles` matches the row's role. */
  predicate RoleIn(p: Principal, roles: set<nat>) {
    exists n :: n in roles && HasRole(p, n)
  }

  /** `Admin::whereIn('role', roles)->get()`: the rows with a matching role, in table order. */
  function WithRoleIn(rs: seq<Principal>, roles: set<nat>): (r: seq<Principal>)
    ensures |r| <= |rs|
    ensures forall p :: p in r <==> p in rs && RoleIn(p, roles)
    ensures forall p :: multiset(r)[p] == if RoleIn(p, roles) then multiset(rs)[p] else 0
  {
    if rs == [] then []
    else
      assert rs == [rs[0]] + rs[1..];
      if RoleIn(rs[0], roles) then [rs[0]] + WithRoleIn(rs[1..], roles)
      else WithRoleIn(rs[1..], roles)
  }

  /** The admin roles each dashboard case lists: super admin all three, support and accounts their own. */
  function VisibleAdminRoles(n: nat): set<nat> {
    if n == 1 then {1, 2, 3} else {n}
  }

  datatype DashboardData = DashboardData(admins: seq<Principal>, users: Option<seq<Principal>>)

  datatype DashboardReply = Shown(data: DashboardData) | NotAuthenticated | InvalidRole

  /**
   * `dashboard`, given the authenticated admin (if any) and both tables:
   * role 1 sees admins of roles 1 to 3, role 2 the role-2 admins and every
   * user, role 3 the role-3 admins; anything else is refused.
   */
  function Dashboard(caller: Option<Principal>, admins: seq<Principal>, users: seq<Principal>): DashboardReply {
    match caller
    case None => NotAuthenticated
    case Some(a) =>
      if HasRole(a, 1) then Shown(DashboardData(WithRoleIn(admins, VisibleAdminRoles(1)), None))
      else if HasRole(a, 2) then Shown(DashboardData(WithRoleIn(admins, VisibleAdminRoles(2)), Some(users)))
      else if HasRole(a, 3) then Shown(DashboardData(WithRoleIn(admins, VisibleAdminRoles(3)), None))
      else InvalidRole
  }

  function DashboardStatus(d: DashboardReply): int {
    if d.Shown? then 200 else 403
  }

  /** A role compares loosely equal to at most one of 1, 2 and 3, so the `switch` cases never overlap. */
  lemma RolesExclusive(p: Principal, m: nat, n: nat)
    requires HasRole(p, m) && HasRole(p, n)
    ensures m == n
  {
  }

  /**
   * The dashboard is shown exactly to an authenticated admin whose role is
   * loosely 1, 2 or 3; everyone else gets a 403.
   */
  lemma DashboardRefusesUnknownRoles(caller: Option<Principal>, admins: seq<Principal>, users: seq<Principal>)
    ensures DashboardStatus(Dashboard(caller, admins, users)) == 200 <==>
      caller.Some? && RoleIn(caller.value, {1, 2, 3})
    ensures caller.None? ==> Dashboard(caller, admins, users) == NotAuthenticated
  {
    if caller.Some? && RoleIn(caller.value, {1, 2, 3}) {
      var n :| n in {1, 2, 3} && HasRole(caller.value, n);
      assert HasRole(caller.value, 1) || HasRole(caller.value, 2) || HasRole(caller.value, 3);
    }
  }

  /**
   * What each role sees: exactly the admins whose role it may see, and the
   * users only for role 2.
   */
  lemma DashboardScope(a: Principal, n: nat, admins: seq<Principal>, users: seq<Principal>)
    requires n in {1, 2, 3} && HasRole(a, n)
    ensures Dashboard(Some(a), admins, users).Shown?
    ensures var d := Dashboard(Some(a), admins, users).data;
      && (forall p :: p in d.admins <==> p in admins && RoleIn(p, VisibleAdminRoles(n)))
      && (d.users.Some? <==> n == 2)
      && (d.users.Some? ==> d.users.value == users)
  {
    if n != 1 {
      if HasRole(a, 1) {
        RolesExclusive(a, 1, n);
      }
      if n == 3 && HasRole(a, 2) {
        RolesExclusive(a, 2, 3);
      }
    }
  }

  /** Support and accounts admins never see an admin of another role, and never a super admin. */
  lemma LowerRolesSeeOnlyTheirOwn(a: Principal, n: nat, admins: seq<Principal>, users: seq<Principal>, p: Principal)
    requires n in {2, 3} && HasRole(a, n)
    requires p in Dashboard(Some(a), admins, users).data.admins
    ensures HasRole(p, n) && !HasRole(p, 1)
  {
    DashboardScope(a, n, admins, users);
    if HasRole(p, 1) {
      RolesExclusive(p, 1, n);
    }
  }
}
