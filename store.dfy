/**
 * The `users` and `admins` tables as the controllers use them.  A table is a
 * sequence of records in insertion order, record i carrying id i + 1.
 * Eloquent's `->first()`, which has no `orderBy` here, is taken to return
 * the lowest id, the first match in the sequence.  Users and admins share
 * one record shape: the columns of the other kind are simply absent.
 */
module Store {
  import opened Wrappers
  import opened Php
  import opened Otp

  /** Which table, and so which guard a token is minted for. */
  datatype Variant = UserAccount | AdminAccount

  /** `Hash::make($plain)`: a one-way tag, distinct for distinct passwords. */
  datatype PasswordHash = HashOf(plain: string)

  /** `Hash::check($plain, $stored)`: false when no password is stored. */
  predicate PasswordChecks(plain: string, stored: Option<PasswordHash>) {
    stored == Some(HashOf(plain))
  }

  /** `JWTAuth::fromUser($record)`, kept opaque: which table and which record it names. */
  datatype Token = Token(variant: Variant, principalId: nat)

  /**
   * One row.  `role` is the admin's role as it was written (a JSON number or
   * a string); `adminId` the creator of a user made by `store`; `profile`
   * holds the remaining columns by name (`full_name`, `pan_number`, ...).
   */
  datatype Principal = Principal(
    id: nat,
    phone: string,
    email: Option<string>,
    password: Option<PasswordHash>,
    passwordChangedAt: Option<int>,
    role: Option<Scalar>,
    adminId: Option<nat>,
    slot: Slot,
    profile: map<string, Scalar>)

  /** The row `firstOrCreate(['phone' => $phone])` inserts: only the phone, every other column at its default. */
  function FreshPrincipal(id: nat, phone: string): Principal {
    Principal(id, phone, None, None, None, None, None, Unissued, map[])
  }

  /** The two `where` lookups of the controllers. */
  datatype Key = ByPhone(phone: string) | ByEmail(email: string)

  predicate Matches(p: Principal, key: Key) {
    match key
    case ByPhone(phone) => p.phone == phone
    case ByEmail(email) => p.email == Some(email)
  }

  /** `where(...)->first()`: the index of the first matching row, if any. */
  function FindFirst(rs: seq<Principal>, key: Key): (k: Option<nat>)
    ensures k.Some? ==> k.value < |rs| && Matches(rs[k.value], key)
    ensures k.Some? ==> forall j :: 0 <= j < k.value ==> !Matches(rs[j], key)
    ensures k.None? ==> forall j :: 0 <= j < |rs| ==> !Matches(rs[j], key)
  {
    if rs == [] then None
    else if Matches(rs[0], key) then Some(0)
    else
      match FindFirst(rs[1..], key)
      case None => None
      case Some(j) => Some(j + 1)
  }

  /**
   * What every write keeps: ids follow insertion order, every OTP slot is
   * well formed, and no two rows share a phone number (`firstOrCreate` finds
   * before it inserts; `store` and `adminstore` check `unique` first).
   */
  predicate WellFormed(rs: seq<Principal>) {
    && (forall i :: 0 <= i < |rs| ==> rs[i].id == i + 1 && SlotInvariant(rs[i].slot))
    && (forall i, j :: 0 <= i < j < |rs| ==> rs[i].phone != rs[j].phone)
  }

  /** A row that is the only match is the one a lookup finds. */
  lemma OnlyMatchFound(rs: seq<Principal>, key: Key, k: nat)
    requires k < |rs| && Matches(rs[k], key)
    requires forall j :: 0 <= j < |rs| && j != k ==> !Matches(rs[j], key)
    ensures FindFirst(rs, key) == Some(k)
  {
  }

  /** In a well-formed table a phone lookup finds the one row with that phone. */
  lemma PhoneLookupFinds(rs: seq<Principal>, k: nat)
    requires WellFormed(rs) && k < |rs|
    ensures FindFirst(rs, ByPhone(rs[k].phone)) == Some(k)
  {
    OnlyMatchFound(rs, ByPhone(rs[k].phone), k);
  }

  /** A row appended under a key no earlier row matches is the one a lookup finds. */
  lemma FindFirstAppend(rs: seq<Principal>, p: Principal, key: Key)
    requires FindFirst(rs, key).None? && Matches(p, key)
    ensures FindFirst(rs + [p], key) == Some(|rs|)
  {
    OnlyMatchFound(rs + [p], key, |rs|);
  }

  /** A table and the index of the row an operation works on. */
  datatype Located = Located(records: seq<Principal>, index: nat)

  /** `firstOrCreate(['phone' => $phone])` */
  function FirstOrCreated(rs: seq<Principal>, phone: string): (at: Located)
    ensures at.index < |at.records| && at.records[at.index].phone == phone
  {
    match FindFirst(rs, ByPhone(phone))
    case Some(k) => Located(rs, k)
    case None => Located(rs + [FreshPrincipal(|rs| + 1, phone)], |rs|)
  }

  /**
   * `firstOrCreate` keeps every existing row, adds at most the one it needs,
   * and a later lookup of the phone finds the row it returned.
   */
  lemma FirstOrCreatedFinds(rs: seq<Principal>, phone: string)
    ensures var at := FirstOrCreated(rs, phone);
      && |rs| <= |at.records| <= |rs| + 1
      && at.records[..|rs|] == rs
      && FindFirst(at.records, ByPhone(phone)) == Some(at.index)
  {
    var at := FirstOrCreated(rs, phone);
    if FindFirst(rs, ByPhone(phone)).None? {
      assert at.records[..|rs|] == rs;
      assert forall j :: 0 <= j < |rs| ==> at.records[j] == rs[j];
    }
  }

  lemma FirstOrCreatedKeepsWellFormed(rs: seq<Principal>, phone: string)
    requires WellFormed(rs)
    ensures WellFormed(FirstOrCreated(rs, phone).records)
  {
  }

  /** The row's slot replaced: `$record->update(['otp' => ..., 'otp_expires_at' => ..., 'is_verified' => ...])`. */
  function WithSlot(rs: seq<Principal>, k: nat, s: Slot): (r: seq<Principal>)
    requires k < |rs|
    ensures |r| == |rs| && r[k].slot == s
  {
    rs[k := rs[k].(slot := s)]
  }

  /**
   * A slot write touches one column group of one row: the row keeps its
   * identity and every other column, and the table stays well formed when
   * the new slot is.
   */
  lemma WithSlotKeepsOthers(rs: seq<Principal>, k: nat, s: Slot)
    requires k < |rs|
    ensures forall j :: 0 <= j < |rs| && j != k ==> WithSlot(rs, k, s)[j] == rs[j]
    ensures WithSlot(rs, k, s)[k] == rs[k].(slot := s)
    ensures WellFormed(rs) && SlotInvariant(s) ==> WellFormed(WithSlot(rs, k, s))
  {
  }

  /** After `sendOtp` the phone lookup of `verifyOtp` lands on the row that holds the new code. */
  lemma IssuedCodeFoundByPhone(rs: seq<Principal>, phone: string, s: Slot)
    ensures var at := FirstOrCreated(rs, phone);
      && FindFirst(WithSlot(at.records, at.index, s), ByPhone(phone)) == Some(at.index)
      && WithSlot(at.records, at.index, s)[at.index].slot == s
  {
    var at := FirstOrCreated(rs, phone);
    FirstOrCreatedFinds(rs, phone);
    var w := WithSlot(at.records, at.index, s);
    assert forall j :: 0 <= j < |w| && j != at.index ==> w[j] == at.records[j];
  }

  /** A slot write changes no phone and no e-mail, so every lookup lands where it did before. */
  lemma WithSlotKeepsLookups(rs: seq<Principal>, k: nat, s: Slot, key: Key)
    requires k < |rs|
    ensures FindFirst(WithSlot(rs, k, s), key) == FindFirst(rs, key)
  {
    var w := WithSlot(rs, k, s);
    assert forall j :: 0 <= j < |rs| ==> (Matches(w[j], key) <==> Matches(rs[j], key));
    SameMatchesSameFirst(rs, w, key);
  }

  lemma {:induction false} SameMatchesSameFirst(a: seq<Principal>, b: seq<Principal>, key: Key)
    requires |a| == |b|
    requires forall j :: 0 <= j < |a| ==> (Matches(a[j], key) <==> Matches(b[j], key))
    ensures FindFirst(a, key) == FindFirst(b, key)
    decreases |a|
  {
    if a != [] && !Matches(a[0], key) {
      SameMatchesSameFirst(a[1..], b[1..], key);
    }
  }

  /**
   * The credential check of `login` and `adminlogin`: the first row with the
   * e-mail address, provided the password checks against its hash.  An
   * unknown address and a wrong password are not told apart.
   */
  function Credentialed(rs: seq<Principal>, email: string, password: string): (k: Option<nat>)
    ensures k.Some? ==> k.value < |rs| && rs[k.value].email == Some(email) && rs[k.value].password == Some(HashOf(password))
    ensures k.Some? ==> forall j :: 0 <= j < k.value ==> rs[j].email != Some(email)
    ensures k.None? ==> forall j :: 0 <= j < |rs| && rs[j].email == Some(email) && rs[j].password == Some(HashOf(password)) ==>
      exists i :: 0 <= i < j && rs[i].email == Some(email)
  {
    match FindFirst(rs, ByEmail(email))
    case None => None
    case Some(k) => if PasswordChecks(password, rs[k].password) then Some(k) else None
  }

  /**
   * One address opens at most one row, with at most one password: two
   * passwords that both pass the login for the same address are the same.
   */
  lemma CredentialsAreUnique(rs: seq<Principal>, email: string, p: string, q: string)
    requires Credentialed(rs, email, p).Some? && Credentialed(rs, email, q).Some?
    ensures p == q && Credentialed(rs, email, p) == Credentialed(rs, email, q)
  {
  }

  /** Issuing or consuming a code never changes who can log in with which password. */
  lemma CredentialedIgnoresSlots(rs: seq<Principal>, k: nat, s: Slot, email: string, password: string)
    requires k < |rs|
    ensures Credentialed(WithSlot(rs, k, s), email, password) == Credentialed(rs, email, password)
  {
    WithSlotKeepsLookups(rs, k, s, ByEmail(email));
  }

  /**
   * A row appended under an address no earlier row holds opens the login
   * with exactly the password it was given the hash of.
   */
  lemma CredentialedAppend(rs: seq<Principal>, p: Principal, email: string, password: string)
    requires FindFirst(rs, ByEmail(email)).None? && p.email == Some(email)
    ensures Credentialed(rs + [p], email, password) == if p.password == Some(HashOf(password)) then Some(|rs|) else None
  {
    FindFirstAppend(rs, p, ByEmail(email));
  }

  /**
   * A row rewritten with an address no other row holds opens the login with
   * exactly the password it was given the hash of.
   */
  lemma CredentialedRewrite(rs: seq<Principal>, k: nat, row: Principal, email: string, password: string)
    requires k < |rs| && row.email == Some(email)
    requires forall j :: 0 <= j < |rs| && j != k ==> rs[j].email != Some(email)
    ensures Credentialed(rs[k := row], email, password) == if row.password == Some(HashOf(password)) then Some(k) else None
  {
    OnlyMatchFound(rs[k := row], ByEmail(email), k);
  }

  /** A new row keeps the table well formed when its id is next, its slot is well formed and its phone is new. */
  lemma AppendKeepsWellFormed(rs: seq<Principal>, p: Principal)
    requires WellFormed(rs) && p.id == |rs| + 1 && SlotInvariant(p.slot)
    requires FindFirst(rs, ByPhone(p.phone)).None?
    ensures WellFormed(rs + [p])
  {
  }

  /**
   * One table.  The methods are the writes the controllers make, each on one
   * row; `records` after a method is stated in full.
   */
  class PrincipalTable {
    const variant: Variant
    var records: seq<Principal>

    ghost predicate Valid()
      reads this
    {
      WellFormed(records)
    }

    constructor (variant: Variant)
      ensures this.variant == variant && records == [] && Valid()
    {
      this.variant := variant;
      records := [];
    }

    /** `Model::firstOrCreate(['phone' => $phone])` */
    method FirstOrCreate(phone: string) returns (k: nat)
      requires Valid()
      modifies this
      ensures Valid()
      ensures records == FirstOrCreated(old(records), phone).records
      ensures k == FirstOrCreated(old(records), phone).index
      ensures FindFirst(records, ByPhone(phone)) == Some(k)
    {
      FirstOrCreatedKeepsWellFormed(records, phone);
      FirstOrCreatedFinds(records, phone);
      var at := FirstOrCreated(records, phone);
      records, k := at.records, at.index;
    }

    /** The issuing `update`: new code, new expiry, `is_verified` false. */
    method IssueOtp(k: nat, code: string, expiresAt: int)
      requires Valid() && k < |records| && IsOtpShape(code)
      modifies this
      ensures Valid()
      ensures records == WithSlot(old(records), k, Issue(code, expiresAt))
    {
      SlotInvariantKept(records[k].slot, code, expiresAt, Str(code), expiresAt);
      WithSlotKeepsOthers(records, k, Issue(code, expiresAt));
      records := WithSlot(records, k, Issue(code, expiresAt));
    }

    /**
     * The two checks of a verification, in the controllers' order; only an
     * accepted code writes (verified, code and expiry null).
     */
    method Attempt(k: nat, submitted: Scalar, now: int) returns (v: Verdict)
      requires Valid() && k < |records|
      modifies this
      ensures Valid()
      ensures v == Decide(old(records)[k].slot, submitted, now)
      ensures records == if v == Accepted then WithSlot(old(records), k, Consumed) else old(records)
    {
      if PastExpiry(records[k].slot, now) {
        v := TimedOut;
      } else if !CodeIdentical(records[k].slot, submitted) {
        v := Mismatch;
      } else {
        WithSlotKeepsOthers(records, k, Consumed);
        records := WithSlot(records, k, Consumed);
        v := Accepted;
      }
    }

    /** `update(['password' => Hash::make(...), 'password_changed_at' => now()])` */
    method SetPassword(k: nat, hash: PasswordHash, at: int)
      requires Valid() && k < |records|
      modifies this
      ensures Valid()
      ensures records == old(records)[k := old(records)[k].(password := Some(hash), passwordChangedAt := Some(at))]
    {
      records := records[k := records[k].(password := Some(hash), passwordChangedAt := Some(at))];
    }

    /** `$record->save()` on a new model. */
    method Insert(p: Principal)
      requires Valid() && p.id == |records| + 1 && SlotInvariant(p.slot)
      requires FindFirst(records, ByPhone(p.phone)).None?
      modifies this
      ensures Valid()
      ensures records == old(records) + [p]
    {
      AppendKeepsWellFormed(records, p);
      records := records + [p];
    }

    /** `$record->save()` on a loaded model whose id, phone and slot were not touched. */
    method Save(k: nat, p: Principal)
      requires Valid() && k < |records|
      requires p.id == records[k].id && p.phone == records[k].phone && p.slot == records[k].slot
      modifies this
      ensures Valid()
      ensures records == old(records)[k := p]
    {
      records := records[k := p];
    }
  }
}
