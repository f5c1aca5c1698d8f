/** achareh/accounts/models.py: the user, verification-code and failed-attempt
    rows, and the database holding them. Time is an integer clock counting
    microseconds, the resolution of the source's datetimes. */
module Models {
  import opened Wrappers
  import opened Text

  const Second: int := 1_000_000
  const Minute: int := 60 * Second
  const Hour: int := 60 * Minute
  const Day: int := 24 * Hour

  /** What `get_expiration_time` adds to the current time. */
  const CodeLifetime: int := 5 * Minute

  const NoPhoneMessage: string := "Users must have a phone number"

  /** The stored password. Hashing is left opaque: a usable credential checks
      true for exactly the raw password it was made from; an unusable one
      never checks true. */
  datatype Credential = Unusable | Hashed(raw: string)

  predicate CheckPassword(c: Credential, attempt: string) {
    c.Hashed? && c.raw == attempt
  }

  /** `set_password(raw)`, where `set_password(None)` makes the password unusable. */
  function MakePassword(raw: Option<string>): (c: Credential)
    ensures forall attempt :: CheckPassword(c, attempt) <==> raw == Some(attempt)
  {
    match raw
    case None => Unusable
    case Some(p) => Hashed(p)
  }

  /** A `CustomUser` row. Nullable columns are Options. */
  datatype User = User(
    phoneNumber: string,
    firstName: Option<string>,
    lastName: Option<string>,
    email: Option<string>,
    password: Credential,
    isActive: bool,
    isStaff: bool,
    isSuperuser: bool)

  /** A user built from a phone number alone, with every column default. */
  function NewUser(phone: string, password: Credential): User {
    User(phone, None, None, None, password, true, false, false)
  }

  /** A `VerificationCode` row. */
  datatype VerificationCode = VerificationCode(
    phoneNumber: string,
    code: string,
    createdAt: int,
    expiresAt: int)

  /** `get_expiration_time`: five minutes after the given instant. */
  function ExpirationTime(now: int): (t: int)
    ensures t > now && t - now == 5 * Minute
  {
    now + CodeLifetime
  }

  /** `VerificationCode.is_valid`: strictly before the expiry instant. */
  predicate IsValid(c: VerificationCode, now: int) {
    now < c.expiresAt
  }

  /** What `str(random.randint(100000, 999999))` can produce. */
  predicate IsGeneratedCode(code: string) {
    |code| == 6 && AllAsciiDigits(code) && code[0] != '0'
  }

  /** Every number in the random range prints as six digits, the first not
      zero, and reads back as itself. */
  lemma GeneratedCodeShape(n: int)
    requires 100000 <= n <= 999999
    ensures IsGeneratedCode(DecimalString(n))
    ensures DecimalValue(DecimalString(n)) == n
  {
    assert Pow10(5) == 100000 && Pow10(6) == 1000000;
    DecimalStringLength(n, 5);
    DecimalRoundTrip(n);
  }

  /** `VerificationCode.__str__`: the phone number, " - ", then the code. */
  function Label(c: VerificationCode): (s: string)
    ensures |s| == |c.phoneNumber| + 3 + |c.code|
    ensures s[..|c.phoneNumber|] == c.phoneNumber
    ensures s[|c.phoneNumber|..|c.phoneNumber| + 3] == " - "
    ensures s[|c.phoneNumber| + 3..] == c.code
  {
    c.phoneNumber + " - " + c.code
  }

  /** The two values the views store in `attempt_type`. */
  datatype AttemptType = LoginAttempt | VerificationAttempt

  /** A `FailedAttempt` row; `phone_number` is nullable. */
  datatype FailedAttempt = FailedAttempt(
    ipAddress: string,
    phoneNumber: Option<string>,
    attemptType: AttemptType,
    timestamp: int)

  /** What the manager raises: `ValueError`, or the database's unique-constraint
      violation on save. */
  datatype ModelError = ValueError(message: string) | IntegrityError

  /** Each user row sits under its own, non-empty phone number. */
  ghost predicate UsersKeyed(users: map<string, User>) {
    forall p :: p in users ==> users[p].phoneNumber == p && p != ""
  }

  /** Rewriting a user's row in place, its phone number unchanged, keeps the
      table keyed. */
  lemma RewriteKeepsUsersKeyed(users: map<string, User>, p: string, u: User)
    requires UsersKeyed(users) && p in users && u.phoneNumber == users[p].phoneNumber
    ensures UsersKeyed(users[p := u])
  {
    forall q | q in users && q != p
      ensures users[p := u][q] == users[q]
    {
    }
  }

  /** The three tables. `users` and `codes` are keyed by their unique
      `phone_number` column; the failed-attempt table is a sequence in
      insertion order. */
  class AccountsDb {
    var users: map<string, User>
    var codes: map<string, VerificationCode>
    var ledger: seq<FailedAttempt>

    /** Each row sits under its own phone number, and no user has an empty one. */
    ghost predicate Valid()
      reads this
    {
      && UsersKeyed(users)
      && (forall p :: p in codes ==> codes[p].phoneNumber == p)
    }

    /** Every stored code came out of `generate_code` in the request that
        created it: six digits, and expiring five minutes after creation. */
    ghost predicate CodesIssued()
      reads this
    {
      forall p :: p in codes ==>
        IsGeneratedCode(codes[p].code) && codes[p].expiresAt == codes[p].createdAt + CodeLifetime
    }

    constructor ()
      ensures Valid() && CodesIssued()
      ensures users == map[] && codes == map[] && ledger == []
    {
      users, codes, ledger := map[], map[], [];
    }

    /** `CustomUserManager.create_user`. */
    method CreateUser(phone: string, password: Option<string>) returns (r: Result<User, ModelError>)
      requires Valid()
      modifies this
      ensures Valid()
      ensures codes == old(codes) && ledger == old(ledger)
      ensures phone == "" ==> r == Failure(ValueError(NoPhoneMessage)) && users == old(users)
      ensures phone != "" && phone in old(users) ==> r == Failure(IntegrityError) && users == old(users)
      ensures phone != "" && phone !in old(users) ==>
        && r == Success(NewUser(phone, MakePassword(password)))
        && users == old(users)[phone := r.value]
    {
      if phone == "" {
        return Failure(ValueError(NoPhoneMessage));
      }
      var user := NewUser(phone, MakePassword(password));
      if phone in users {
        return Failure(IntegrityError);
      }
      users := users[phone := user];
      r := Success(user);
    }

    /** `CustomUserManager.create_superuser`. `is_admin` is not a column of
        `CustomUser`: it is set on the returned object only, so it comes back
        as `isAdmin` and is not stored. */
    method CreateSuperuser(phone: string, password: Option<string>) returns (r: Result<User, ModelError>, isAdmin: bool)
      requires Valid()
      modifies this
      ensures Valid()
      ensures codes == old(codes) && ledger == old(ledger)
      ensures r.Success? <==> phone != "" && phone !in old(users)
      ensures r.Failure? ==>
        && r.error == (if phone == "" then ValueError(NoPhoneMessage) else IntegrityError)
        && users == old(users) && !isAdmin
      ensures r.Success? ==>
        && r.value == NewUser(phone, MakePassword(password)).(isStaff := true, isSuperuser := true)
        && r.value.isStaff && r.value.isSuperuser && isAdmin
        && users == old(users)[phone := r.value]
    {
      r := CreateUser(phone, password);
      if r.Failure? {
        return r, false;
      }
      var user := r.value.(isStaff := true, isSuperuser := true);
      isAdmin := true;
      users := users[phone := user];
      r := Success(user);
    }

    /** `VerificationCode.objects.create(phone_number=phone)`: an empty code,
        created now, expiring at the default `get_expiration_time()`. */
    method CreateVerificationCode(phone: string, now: int) returns (r: Outcome<ModelError>)
      requires Valid()
      modifies this
      ensures Valid()
      ensures users == old(users) && ledger == old(ledger)
      ensures phone in old(codes) ==> r == Fail(IntegrityError) && codes == old(codes)
      ensures phone !in old(codes) ==>
        r == Pass && codes == old(codes)[phone := VerificationCode(phone, "", now, now + CodeLifetime)]
    {
      if phone in codes {
        return Fail(IntegrityError);
      }
      codes := codes[phone := VerificationCode(phone, "", now, ExpirationTime(now))];
      r := Pass;
    }

    /** `VerificationCode.generate_code`: a code drawn from [100000, 999999]
        (the draw is a nondeterministic choice), a fresh expiry five minutes
        from now, and the row saved. */
    method GenerateCode(phone: string, now: int)
      requires Valid() && phone in codes
      modifies this
      ensures Valid()
      ensures users == old(users) && ledger == old(ledger)
      ensures phone in codes
      ensures codes == old(codes)[phone := old(codes[phone]).(code := codes[phone].code, expiresAt := now + CodeLifetime)]
      ensures exists n :: 100000 <= n <= 999999 && codes[phone].code == DecimalString(n)
      ensures IsGeneratedCode(codes[phone].code)
    {
      var n :| 100000 <= n <= 999999;
      GeneratedCodeShape(n);
      codes := codes[phone := codes[phone].(code := DecimalString(n), expiresAt := ExpirationTime(now))];
    }

    /** `FailedAttempt.objects.create(...)`: appends one record stamped now. */
    method RecordFailure(ip: string, phone: Option<string>, kind: AttemptType, now: int)
      requires Valid()
      modifies this
      ensures Valid()
      ensures users == old(users) && codes == old(codes)
      ensures ledger == old(ledger) + [FailedAttempt(ip, phone, kind, now)]
    {
      ledger := ledger + [FailedAttempt(ip, phone, kind, now)];
    }
  }
}
