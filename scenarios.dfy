/** Whole request sequences on a fresh database, with the responses the
    clients see proved for each. */
module Scenarios {
  import opened Wrappers
  import opened Models
  import opened Views
  import opened Text
  import Validators

  const Phone: string := "09123456789"
  const Ip: string := "1.2.3.4"

  /** Register, then verify with the code sent: the first verify succeeds and
      consumes the code, the second is refused, and the user it created cannot
      log in by password until one is set. */
  method CodeIsUsedOnce(now: int) returns (sent: Response, first: Response, second: Response, login: Response)
    ensures sent.status == 200 && sent.body.CodeSent?
    ensures first == Response(200, Verified(VerifiedDetail, SessionTokens(Phone)))
    ensures second == Response(400, Detail(InvalidCode))
    ensures login == Response(400, Detail(InvalidCredentials))
  {
    var db := new AccountsDb();
    sent := Register(db, Some(Phone), Ip, now);
    var code := sent.body.verificationCode;
    first := VerifyCode(db, Some(Phone), Some(code), Ip, now + Minute);
    second := VerifyCode(db, Some(Phone), Some(code), Ip, now + 2 * Minute);
    login := Login(db, Some(Phone), Some("any password"), Ip, now + 3 * Minute);
  }

  /** The login failure the scenario below records at time t. */
  function WrongLogin(t: int): FailedAttempt {
    FailedAttempt(Ip, Some(Phone), LoginAttempt, t)
  }

  /** The counts `is_blocked` sees as the scenario's failures pile up. */
  lemma FailuresPileUp(now: int)
    ensures RecentFailures([WrongLogin(now)], Ip, Phone, LoginAttempt, now + Minute) == 1
    ensures RecentFailures([WrongLogin(now), WrongLogin(now + Minute)], Ip, Phone, LoginAttempt, now + 2 * Minute) == 2
    ensures RecentFailures([WrongLogin(now), WrongLogin(now + Minute), WrongLogin(now + 2 * Minute)],
                           Ip, Phone, LoginAttempt, now + 3 * Minute) == 3
  {
    var a1, a2, a3 := WrongLogin(now), WrongLogin(now + Minute), WrongLogin(now + 2 * Minute);
    FailureAppended([], a1, Ip, Phone, LoginAttempt, now + Minute);
    FailureAppended([], a1, Ip, Phone, LoginAttempt, now + 2 * Minute);
    FailureAppended([a1], a2, Ip, Phone, LoginAttempt, now + 2 * Minute);
    FailureAppended([], a1, Ip, Phone, LoginAttempt, now + 3 * Minute);
    FailureAppended([a1], a2, Ip, Phone, LoginAttempt, now + 3 * Minute);
    FailureAppended([a1, a2], a3, Ip, Phone, LoginAttempt, now + 3 * Minute);
    assert [a1] + [a2] == [a1, a2];
    assert [a1, a2] + [a3] == [a1, a2, a3];
  }

  /** Three wrong passwords within the hour, then the right one from the same
      address: the right one is refused with 403. An hour after the last
      failure the right password works again. */
  method ThreeFailuresBlockTheRightPassword(now: int) returns (wrong: seq<Response>, blocked: Response, later: Response)
    ensures |wrong| == 3
    ensures forall k :: 0 <= k < |wrong| ==> wrong[k] == Response(400, Detail(InvalidCredentials))
    ensures blocked == Response(403, Detail(TooManyAttempts))
    ensures later == Response(200, Tokens(SessionTokens(Phone)))
  {
    var db := new AccountsDb();
    var created := db.CreateUser(Phone, Some("correct horse"));
    FailuresPileUp(now);
    var r1 := Login(db, Some(Phone), Some("wrong"), Ip, now);
    assert db.ledger == [WrongLogin(now)];
    var r2 := Login(db, Some(Phone), Some("wrong"), Ip, now + Minute);
    assert db.ledger == [WrongLogin(now), WrongLogin(now + Minute)];
    var r3 := Login(db, Some(Phone), Some("wrong"), Ip, now + 2 * Minute);
    assert db.ledger == [WrongLogin(now), WrongLogin(now + Minute), WrongLogin(now + 2 * Minute)];
    wrong := [r1, r2, r3];
    blocked := Login(db, Some(Phone), Some("correct horse"), Ip, now + 3 * Minute);
    StaleFailuresNeverBlock(db.ledger, Ip, Phone, LoginAttempt, now + 2 * Minute + Hour + 1);
    later := Login(db, Some(Phone), Some("correct horse"), Ip, now + 2 * Minute + Hour + 1);
  }

  /** An unknown phone number and a wrong password give the same answer. */
  method UnknownPhoneLooksLikeWrongPassword(now: int) returns (unknown: Response, wrong: Response)
    ensures unknown == wrong
  {
    var db := new AccountsDb();
    var created := db.CreateUser(Phone, Some("correct horse"));
    unknown := Login(db, Some("09000000000"), Some("correct horse"), Ip, now);
    wrong := Login(db, Some(Phone), Some("wrong"), Ip, now);
  }

  /** At the expiry instant the code no longer verifies, yet Register still
      reports it as sent; one microsecond later Register purges it and sends
      a new one. */
  method ExpiryInstantRequests(now: int) returns (verify: Response, again: Response, after: Response)
    ensures verify == Response(400, Detail(InvalidCode))
    ensures again == Response(400, Detail(CodeAlreadySent))
    ensures after.status == 200 && after.body.CodeSent?
  {
    var db := new AccountsDb();
    var sent := Register(db, Some(Phone), Ip, now);
    var expiry := now + CodeLifetime;
    verify := VerifyCode(db, Some(Phone), Some(sent.body.verificationCode), Ip, expiry);
    again := Register(db, Some(Phone), Ip, expiry);
    after := Register(db, Some(Phone), Ip, expiry + 1);
  }

  /** Register sends a code to any non-empty phone string, one the mobile
      validator rejects included. */
  method RegisterSkipsTheFormatCheck(now: int) returns (sent: Response, check: Outcome<Validators.ValidationError>)
    ensures sent.status == 200
    ensures check.Fail?
  {
    var db := new AccountsDb();
    sent := Register(db, Some("hello"), Ip, now);
    check := Validators.ValidateIranianMobile("hello");
  }

  const PaddedSecret: string := "  secret-pass  "
  const Secret: string := "secret-pass"

  /** The padded password strips to the secret, which the password field
      accepts. */
  lemma PaddedSecretStrips()
    ensures Strip(PaddedSecret) == Secret
    ensures PaddedSecret != Secret
  {
    assert PaddedSecret == "  " + Secret + "  ";
    StripRemovesPadding("  ", Secret, "  ");
  }

  /** The secret is long enough for the password field and free of U+0000. */
  lemma SecretHasNoNull()
    ensures |Secret| >= Serializers.MinPasswordLength && '\0' !in Secret
  {
  }

  /** A password set with surrounding spaces is stored stripped, while Login
      compares the raw string: the padded password fails, the stripped one
      works. */
  method PaddedPasswordIsStoredStripped(now: int) returns (saved: Response, padded: Response, stripped: Response)
    ensures saved == Response(200, Detail(PasswordSet))
    ensures padded == Response(400, Detail(InvalidCredentials))
    ensures stripped == Response(200, Tokens(SessionTokens(Phone)))
  {
    var db := new AccountsDb();
    var created := db.CreateUser(Phone, None);
    PaddedSecretStrips();
    SecretHasNoNull();
    saved := SetPassword(db, Phone, Some(PaddedSecret));
    padded := Login(db, Some(Phone), Some(PaddedSecret), Ip, now);
    stripped := Login(db, Some(Phone), Some(Secret), Ip, now);
  }
}
