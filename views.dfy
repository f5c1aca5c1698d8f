/** achareh/accounts/views.py: the failed-attempt limiter and the request
    handlers for register, verify, set-password, login and complete-profile.
    A handler receives the request's fields (None where the key is absent),
    the client address and the current time, and answers a status with a body. */
module Views {
  import opened Wrappers
  import opened Text
  import opened Models
  import Serializers

  /** Failures needed inside the window for a block. */
  const BlockThreshold: nat := 3
  /** How far back `is_blocked` looks. */
  const BlockWindow: int := Hour
  /** How old a code may be for `VerifyCodeView` to look at it. */
  const CodeFreshness: int := 5 * Minute

  const PhoneRequired: string := "Phone number is required."
  const TooManyAttempts: string := "Too many failed attempts. Please try again later."
  const CodeAlreadySent: string := "Verification code already sent for this phone number."
  const CodeSentDetail: string := "Verification code sent."
  const CodeFieldsRequired: string := "Phone number and code are required."
  const VerifiedDetail: string := "Verification successful. Please set your password."
  const InvalidCode: string := "Invalid code or code expired."
  const CredentialFieldsRequired: string := "Phone number and password are required."
  const InvalidCredentials: string := "Invalid credentials."
  const PasswordSet: string := "Password set successfully."
  const ProfileUpdated: string := "Profile updated successfully."

  /** The refresh/access pair `RefreshToken.for_user` mints. Token signing is
      left opaque: the pair only records the user it was minted for. */
  datatype SessionTokens = SessionTokens(subject: string)

  /** The JSON bodies the handlers answer with. */
  datatype Body =
    | Detail(detail: string)
    | CodeSent(detail: string, verificationCode: string)
    | Verified(detail: string, tokens: SessionTokens)
    | Tokens(tokens: SessionTokens)
    | PasswordErrors(password: seq<string>)
    | FieldErrors(errors: Serializers.ProfileErrors)

  datatype Response = Response(status: int, body: Body)

  /** Python truthiness of a request field: present and not the empty string. */
  predicate Given(field: Option<string>) {
    field.Some? && field.value != ""
  }

  // ---------------------------------------------------------------------------
  // BlockableView.is_blocked

  /** The filter of `is_blocked`: same address, phone number and attempt type,
      stamped no earlier than one hour before now. */
  predicate CountsToward(a: FailedAttempt, ip: string, phone: string, kind: AttemptType, now: int) {
    && a.ipAddress == ip
    && a.phoneNumber == Some(phone)
    && a.attemptType == kind
    && a.timestamp >= now - BlockWindow
  }

  /** `count()` of that filter over the failed-attempt table. */
  function RecentFailures(ledger: seq<FailedAttempt>, ip: string, phone: string, kind: AttemptType, now: int): (n: nat)
    ensures n <= |ledger|
  {
    if ledger == [] then 0
    else
      RecentFailures(ledger[..|ledger| - 1], ip, phone, kind, now)
      + (if CountsToward(ledger[|ledger| - 1], ip, phone, kind, now) then 1 else 0)
  }

  /** The positions of the records the filter selects. */
  ghost function RecentIndices(ledger: seq<FailedAttempt>, ip: string, phone: string, kind: AttemptType, now: int): set<int> {
    set i | 0 <= i < |ledger| && CountsToward(ledger[i], ip, phone, kind, now)
  }

  /** The count is the number of selected records. */
  lemma {:induction false} RecentFailuresCountsRecords(ledger: seq<FailedAttempt>, ip: string, phone: string, kind: AttemptType, now: int)
    ensures RecentFailures(ledger, ip, phone, kind, now) == |RecentIndices(ledger, ip, phone, kind, now)|
  {
    if ledger != [] {
      var n := |ledger| - 1;
      RecentFailuresCountsRecords(ledger[..n], ip, phone, kind, now);
      var before := RecentIndices(ledger[..n], ip, phone, kind, now);
      if CountsToward(ledger[n], ip, phone, kind, now) {
        assert RecentIndices(ledger, ip, phone, kind, now) == before + {n};
      } else {
        assert RecentIndices(ledger, ip, phone, kind, now) == before;
      }
    }
  }

  /** `is_blocked(ip, phone, kind)`: at least three records of that exact
      triple in the last hour. It only reads. */
  function IsBlocked(ledger: seq<FailedAttempt>, ip: string, phone: string, kind: AttemptType, now: int): (blocked: bool)
    ensures blocked <==> |RecentIndices(ledger, ip, phone, kind, now)| >= BlockThreshold
  {
    RecentFailuresCountsRecords(ledger, ip, phone, kind, now);
    RecentFailures(ledger, ip, phone, kind, now) >= BlockThreshold
  }

  /** Appending one record adds one to the count exactly when it matches. */
  lemma {:induction false} FailureAppended(ledger: seq<FailedAttempt>, a: FailedAttempt, ip: string, phone: string, kind: AttemptType, now: int)
    ensures RecentFailures(ledger + [a], ip, phone, kind, now)
         == RecentFailures(ledger, ip, phone, kind, now) + (if CountsToward(a, ip, phone, kind, now) then 1 else 0)
  {
    assert (ledger + [a])[..|ledger|] == ledger;
  }

  /** The third matching failure within the hour makes the triple blocked. */
  lemma ThirdFailureBlocks(ledger: seq<FailedAttempt>, a: FailedAttempt, ip: string, phone: string, kind: AttemptType, now: int)
    requires RecentFailures(ledger, ip, phone, kind, now) == BlockThreshold - 1
    requires CountsToward(a, ip, phone, kind, now)
    ensures !IsBlocked(ledger, ip, phone, kind, now)
    ensures IsBlocked(ledger + [a], ip, phone, kind, now)
  {
    FailureAppended(ledger, a, ip, phone, kind, now);
  }

  /** A record stamped exactly one hour ago still counts; one a microsecond
      older does not. */
  lemma WindowIncludesItsEdge(ip: string, phone: string, kind: AttemptType, now: int)
    ensures CountsToward(FailedAttempt(ip, Some(phone), kind, now - Hour), ip, phone, kind, now)
    ensures !CountsToward(FailedAttempt(ip, Some(phone), kind, now - Hour - 1), ip, phone, kind, now)
  {
  }

  /** Records older than the window never block, however many there are. */
  lemma StaleFailuresNeverBlock(ledger: seq<FailedAttempt>, ip: string, phone: string, kind: AttemptType, now: int)
    requires forall i :: 0 <= i < |ledger| ==> ledger[i].timestamp < now - BlockWindow
    ensures !IsBlocked(ledger, ip, phone, kind, now)
  {
    assert RecentIndices(ledger, ip, phone, kind, now) == {};
  }

  /** With no new failures the count can only fall as time passes, so a block
      lifts by itself. */
  lemma {:induction false} WindowSlides(ledger: seq<FailedAttempt>, ip: string, phone: string, kind: AttemptType, now: int, later: int)
    requires now <= later
    ensures RecentFailures(ledger, ip, phone, kind, later) <= RecentFailures(ledger, ip, phone, kind, now)
  {
    if ledger != [] {
      WindowSlides(ledger[..|ledger| - 1], ip, phone, kind, now, later);
    }
  }

  // ---------------------------------------------------------------------------
  // RegisterView.post

  /** The purge filter of RegisterView: `expires_at__lt=now`. */
  predicate Expired(c: VerificationCode, now: int) {
    c.expiresAt < now
  }

  /** At the expiry instant a code is neither purged by Register nor valid for
      Verify: Register still answers "already sent" while Verify rejects it. */
  lemma ExpiryInstant(c: VerificationCode)
    ensures !Expired(c, c.expiresAt) && !IsValid(c, c.expiresAt)
  {
  }

  /** `RegisterView.post`. The view never runs `RegisterSerializer`: neither
      the phone format nor an existing account is checked. */
  method Register(db: AccountsDb, phone: Option<string>, ip: string, now: int) returns (resp: Response)
    requires db.Valid()
    modifies db
    ensures db.Valid() && (old(db.CodesIssued()) ==> db.CodesIssued())
    ensures db.users == old(db.users) && db.ledger == old(db.ledger)
    ensures !Given(phone) ==> resp == Response(400, Detail(PhoneRequired)) && db.codes == old(db.codes)
    ensures Given(phone) && IsBlocked(old(db.ledger), ip, phone.value, VerificationAttempt, now) ==>
      resp == Response(403, Detail(TooManyAttempts)) && db.codes == old(db.codes)
    ensures (&& Given(phone) && !IsBlocked(old(db.ledger), ip, phone.value, VerificationAttempt, now)
             && phone.value in old(db.codes) && !Expired(old(db.codes)[phone.value], now)) ==>
      resp == Response(400, Detail(CodeAlreadySent)) && db.codes == old(db.codes)
    ensures (&& Given(phone) && !IsBlocked(old(db.ledger), ip, phone.value, VerificationAttempt, now)
             && (phone.value !in old(db.codes) || Expired(old(db.codes)[phone.value], now))) ==>
      && resp.status == 200 && resp.body.CodeSent? && resp.body.detail == CodeSentDetail
      && IsGeneratedCode(resp.body.verificationCode)
      && db.codes == old(db.codes)[phone.value := VerificationCode(phone.value, resp.body.verificationCode, now, now + CodeLifetime)]
  {
    if !Given(phone) {
      return Response(400, Detail(PhoneRequired));
    }
    var p := phone.value;
    if IsBlocked(db.ledger, ip, p, VerificationAttempt, now) {
      return Response(403, Detail(TooManyAttempts));
    }
    if p in db.codes && Expired(db.codes[p], now) {
      db.codes := db.codes - {p};
    }
    if p in db.codes {
      return Response(400, Detail(CodeAlreadySent));
    }
    var created := db.CreateVerificationCode(p, now);
    db.GenerateCode(p, now);
    resp := Response(200, CodeSent(CodeSentDetail, db.codes[p].code));
  }

  // ---------------------------------------------------------------------------
  // VerifyCodeView.post

  /** `VerificationCode.objects.filter(phone_number=phone, code=code,
      created_at__gte=now - 5 min).first()`. */
  function FindCode(codes: map<string, VerificationCode>, phone: string, code: string, now: int): (found: Option<VerificationCode>)
    ensures found.Some? ==>
      phone in codes && found.value == codes[phone] && found.value.code == code && found.value.createdAt >= now - CodeFreshness
    ensures found.None? ==>
      phone !in codes || codes[phone].code != code || codes[phone].createdAt < now - CodeFreshness
  {
    if phone in codes && codes[phone].code == code && codes[phone].createdAt >= now - CodeFreshness
    then Some(codes[phone]) else None
  }

  /** `VerifyCodeView.post`: consumes a matching live code, gets or creates the
      user, and mints tokens; otherwise records one verification failure. */
  method VerifyCode(db: AccountsDb, phone: Option<string>, code: Option<string>, ip: string, now: int) returns (resp: Response)
    requires db.Valid()
    modifies db
    ensures db.Valid() && (old(db.CodesIssued()) ==> db.CodesIssued())
    ensures !(Given(phone) && Given(code)) ==> resp == Response(400, Detail(CodeFieldsRequired)) && unchanged(db)
    ensures Given(phone) && Given(code) && IsBlocked(old(db.ledger), ip, phone.value, VerificationAttempt, now) ==>
      resp == Response(403, Detail(TooManyAttempts)) && unchanged(db)
    ensures resp.status == 200 <==>
      && Given(phone) && Given(code)
      && !IsBlocked(old(db.ledger), ip, phone.value, VerificationAttempt, now)
      && phone.value in old(db.codes)
      && old(db.codes)[phone.value].code == code.value
      && old(db.codes)[phone.value].createdAt >= now - CodeFreshness
      && IsValid(old(db.codes)[phone.value], now)
    ensures resp.status == 200 ==>
      && resp == Response(200, Verified(VerifiedDetail, SessionTokens(phone.value)))
      && db.codes == old(db.codes) - {phone.value}
      && db.ledger == old(db.ledger)
      && phone.value in db.users
      && (phone.value in old(db.users) ==> db.users == old(db.users))
      && (phone.value !in old(db.users) ==> db.users == old(db.users)[phone.value := NewUser(phone.value, Unusable)])
    ensures (&& Given(phone) && Given(code) && !IsBlocked(old(db.ledger), ip, phone.value, VerificationAttempt, now)
             && resp.status != 200) ==>
      && resp == Response(400, Detail(InvalidCode))
      && db.users == old(db.users) && db.codes == old(db.codes)
      && db.ledger == old(db.ledger) + [FailedAttempt(ip, Some(phone.value), VerificationAttempt, now)]
  {
    if !Given(phone) || !Given(code) {
      return Response(400, Detail(CodeFieldsRequired));
    }
    var p, c := phone.value, code.value;
    if IsBlocked(db.ledger, ip, p, VerificationAttempt, now) {
      return Response(403, Detail(TooManyAttempts));
    }
    var found := FindCode(db.codes, p, c, now);
    if found.Some? && IsValid(found.value, now) {
      if p !in db.users {
        // get_or_create, then set_unusable_password() and save()
        db.users := db.users[p := NewUser(p, MakePassword(None))];
      }
      var tokens := SessionTokens(p);
      db.codes := db.codes - {p};
      resp := Response(200, Verified(VerifiedDetail, tokens));
    } else {
      db.RecordFailure(ip, Some(p), VerificationAttempt, now);
      resp := Response(400, Detail(InvalidCode));
    }
  }

  /** Under the stored-code invariant the freshness filter of VerifyCodeView
      adds nothing to `is_valid`: a code still valid was created less than five
      minutes ago. */
  lemma FreshnessFollowsFromValidity(db: AccountsDb, phone: string, now: int)
    requires db.CodesIssued() && phone in db.codes && IsValid(db.codes[phone], now)
    ensures db.codes[phone].createdAt > now - CodeFreshness
  {
  }

  /** Without the one-clock-reading simplification: `generate_code` reads the
      clock after the insert has stamped `created_at`, so `expires_at` may lie
      later than `created_at` + 5 minutes. Once it lies two microseconds later
      or more, there is an instant at which the code is still valid but the
      freshness filter refuses it. */
  lemma LateExpiryLeavesValidCodeStale(c: VerificationCode)
    requires c.expiresAt >= c.createdAt + CodeLifetime + 2
    ensures exists now :: IsValid(c, now) && c.createdAt < now - CodeFreshness
  {
    var now := c.createdAt + CodeFreshness + 1;
    assert IsValid(c, now);
  }

  // ---------------------------------------------------------------------------
  // SetPasswordView.post

  /** `SetPasswordView.post` for the authenticated `user`: replaces the
      credential with the stripped password when the serializer accepts it. */
  method SetPassword(db: AccountsDb, user: string, password: Option<string>) returns (resp: Response)
    requires db.Valid() && user in db.users
    modifies db
    ensures db.Valid()
    ensures db.codes == old(db.codes) && db.ledger == old(db.ledger)
    ensures resp.status == 200 <==>
      password.Some? && |Strip(password.value)| >= Serializers.MinPasswordLength && '\0' !in Strip(password.value)
    ensures resp.status == 200 ==>
      && resp == Response(200, Detail(PasswordSet))
      && db.users == old(db.users)[user := old(db.users[user]).(password := Hashed(Strip(password.value)))]
      && forall attempt :: CheckPassword(db.users[user].password, attempt) <==> attempt == Strip(password.value)
    ensures resp.status != 200 ==>
      && resp == Response(400, PasswordErrors(Serializers.ValidatePasswordField(password).error))
      && db.users == old(db.users)
  {
    var validated := Serializers.ValidatePasswordField(password);
    if validated.Success? {
      var stored := Strip(password.value);
      assert validated.value == stored;
      var u := db.users[user].(password := Hashed(stored));
      RewriteKeepsUsersKeyed(db.users, user, u);
      db.users := db.users[user := u];
      assert forall attempt :: CheckPassword(db.users[user].password, attempt) <==> attempt == stored;
      resp := Response(200, Detail(PasswordSet));
    } else {
      resp := Response(400, PasswordErrors(validated.error));
    }
  }

  // ---------------------------------------------------------------------------
  // LoginView.post

  /** `LoginView.post`: the block is checked before the password; a wrong
      password records one login failure; an unknown phone number answers the
      same "Invalid credentials." and records nothing. */
  method Login(db: AccountsDb, phone: Option<string>, password: Option<string>, ip: string, now: int) returns (resp: Response)
    requires db.Valid()
    modifies db
    ensures db.Valid()
    ensures db.users == old(db.users) && db.codes == old(db.codes)
    ensures !(Given(phone) && Given(password)) ==>
      resp == Response(400, Detail(CredentialFieldsRequired)) && db.ledger == old(db.ledger)
    ensures Given(phone) && Given(password) && IsBlocked(old(db.ledger), ip, phone.value, LoginAttempt, now) ==>
      resp == Response(403, Detail(TooManyAttempts)) && db.ledger == old(db.ledger)
    ensures (&& Given(phone) && Given(password) && !IsBlocked(old(db.ledger), ip, phone.value, LoginAttempt, now)
             && phone.value !in db.users) ==>
      resp == Response(400, Detail(InvalidCredentials)) && db.ledger == old(db.ledger)
    ensures resp.status == 200 <==>
      && Given(phone) && Given(password)
      && !IsBlocked(old(db.ledger), ip, phone.value, LoginAttempt, now)
      && phone.value in db.users
      && CheckPassword(db.users[phone.value].password, password.value)
    ensures resp.status == 200 ==>
      resp == Response(200, Tokens(SessionTokens(phone.value))) && db.ledger == old(db.ledger)
    ensures (&& Given(phone) && Given(password) && !IsBlocked(old(db.ledger), ip, phone.value, LoginAttempt, now)
             && phone.value in db.users && !CheckPassword(db.users[phone.value].password, password.value)) ==>
      && resp == Response(400, Detail(InvalidCredentials))
      && db.ledger == old(db.ledger) + [FailedAttempt(ip, Some(phone.value), LoginAttempt, now)]
  {
    if !Given(phone) || !Given(password) {
      return Response(400, Detail(CredentialFieldsRequired));
    }
    var p, pw := phone.value, password.value;
    if IsBlocked(db.ledger, ip, p, LoginAttempt, now) {
      return Response(403, Detail(TooManyAttempts));
    }
    if p !in db.users {
      // CustomUser.DoesNotExist
      return Response(400, Detail(InvalidCredentials));
    }
    if CheckPassword(db.users[p].password, pw) {
      resp := Response(200, Tokens(SessionTokens(p)));
    } else {
      db.RecordFailure(ip, Some(p), LoginAttempt, now);
      resp := Response(400, Detail(InvalidCredentials));
    }
  }

  // ---------------------------------------------------------------------------
  // CompleteProfileView.post

  /** Emails that are set are held by one user each. */
  ghost predicate EmailsUnique(users: map<string, User>) {
    forall p, q :: p in users && q in users && p != q && users[p].email.Some? ==> users[p].email != users[q].email
  }

  /** Giving one user an email no user holds keeps emails unique. */
  lemma FreshEmailKeepsUnique(users: map<string, User>, user: string, u: User)
    requires EmailsUnique(users) && user in users
    requires u.email.Some? ==> forall p :: p in users ==> users[p].email != u.email
    ensures EmailsUnique(users[user := u])
  {
  }

  /** `CompleteProfileView.post` for the authenticated `user`. The view assigns
      `validated_data.get(...)` to all three fields itself, so a field whose
      key is absent becomes NULL; `UserDetailsSerializer.update` is not used. */
  method CompleteProfile(db: AccountsDb, user: string, input: Serializers.ProfileInput) returns (resp: Response)
    requires db.Valid() && user in db.users
    modifies db
    ensures db.Valid()
    ensures db.codes == old(db.codes) && db.ledger == old(db.ledger)
    ensures EmailsUnique(old(db.users)) ==> EmailsUnique(db.users)
    ensures resp.status == 200 <==> old(Serializers.ValidateProfile(db, input)).Success?
    ensures resp.status != 200 ==>
      && resp == Response(400, FieldErrors(old(Serializers.ValidateProfile(db, input)).error))
      && db.users == old(db.users)
    ensures resp.status == 200 ==>
      && resp == Response(200, Detail(ProfileUpdated))
      && user in db.users
      && db.users == old(db.users)[user := old(db.users[user]).(
           firstName := db.users[user].firstName,
           lastName := db.users[user].lastName,
           email := db.users[user].email)]
      && db.users[user].firstName == (if input.firstName.Some? then Some(Strip(input.firstName.value)) else None)
      && db.users[user].lastName == (if input.lastName.Some? then Some(Strip(input.lastName.value)) else None)
      && db.users[user].email == (if input.email.Some? then Some(Strip(input.email.value)) else None)
  {
    var validated := Serializers.ValidateProfile(db, input);
    if validated.Failure? {
      return Response(400, FieldErrors(validated.error));
    }
    var v := validated.value;
    var u := db.users[user].(firstName := v.firstName, lastName := v.lastName, email := v.email);
    if v.email.Some? {
      Serializers.ValidatedEmailIsFree(db, input);
    }
    if EmailsUnique(db.users) {
      FreshEmailKeepsUnique(db.users, user, u);
    }
    RewriteKeepsUsersKeyed(db.users, user, u);
    db.users := db.users[user := u];
    resp := Response(200, Detail(ProfileUpdated));
  }
}
