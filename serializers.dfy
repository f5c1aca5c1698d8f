/** achareh/accounts/serializers.py, together with the behaviour of the
    Django REST framework fields it declares: a required field that is absent
    fails with "required", a `CharField` strips surrounding whitespace, an
    all-whitespace value is blank, and the stripped value then goes through
    the field's validators: a model field's `max_length` becomes a length
    check, and every `CharField` refuses the null character. A field that
    fails reports the list of its messages. */
module Serializers {
  import opened Wrappers
  import opened Text
  import opened Models

  const RequiredMessage: string := "This field is required."
  const BlankMessage: string := "This field may not be blank."
  const PhoneTakenMessage: string := "This phone number is already registered."
  const ShortPasswordMessage: string := "Password must be at least 8 characters long."
  const EmailTakenMessage: string := "This email is already in use."
  const NullCharactersMessage: string := "Null characters are not allowed."

  const MinPasswordLength: nat := 8
  const FirstNameMaxLength: nat := 30
  const LastNameMaxLength: nat := 50
  /** `EmailField`'s default `max_length`. */
  const EmailMaxLength: nat := 254

  function MaxLengthMessage(n: nat): (m: string)
    ensures m != NullCharactersMessage
  {
    var m := "Ensure this field has no more than " + DecimalString(n) + " characters.";
    assert m[0] == 'E';
    m
  }

  /** What `ProhibitNullCharactersValidator`, which every `CharField` runs,
      reports about a value. */
  function NullCharacterErrors(v: string): (errors: seq<string>)
    ensures errors == [] <==> '\0' !in v
    ensures forall e :: e in errors ==> e == NullCharactersMessage
  {
    if '\0' in v then [NullCharactersMessage] else []
  }

  /** The validators of a `CharField` with a `max_length`, in the order the
      field runs them: every message of every validator that fails. */
  function CharFieldErrors(v: string, maxLength: nat): (errors: seq<string>)
    ensures MaxLengthMessage(maxLength) in errors <==> |v| > maxLength
    ensures NullCharactersMessage in errors <==> '\0' in v
    ensures forall e :: e in errors ==> e == MaxLengthMessage(maxLength) || e == NullCharactersMessage
  {
    (if |v| > maxLength then [MaxLengthMessage(maxLength)] else []) + NullCharacterErrors(v)
  }

  /** `RegisterSerializer.validate_phone_number`: refuses a phone number that
      some user already holds, and otherwise hands the value back unchanged. */
  function ValidatePhoneNumber(db: AccountsDb, value: string): (r: Result<string, string>)
    reads db
    ensures r.Success? ==> r.value == value
    ensures r.Failure? ==> r.error == PhoneTakenMessage
    ensures db.Valid() ==> (r.Success? <==> value !in db.users)
  {
    if exists p :: p in db.users && db.users[p].phoneNumber == value then Failure(PhoneTakenMessage)
    else Success(value)
  }

  /** `PasswordSerializer.validate_password`. */
  function ValidatePassword(value: string): (r: Result<string, string>)
    ensures r.Success? <==> |value| >= MinPasswordLength
    ensures r.Success? ==> r.value == value
    ensures r.Failure? ==> r.error == ShortPasswordMessage
  {
    if |value| < 8 then Failure(ShortPasswordMessage) else Success(value)
  }

  /** The whole `password` field of `PasswordSerializer`: required, not blank,
      stripped, free of null characters, then `validate_password` on the
      stripped value. */
  function ValidatePasswordField(data: Option<string>): (r: Result<string, seq<string>>)
    ensures data.None? ==> r == Failure([RequiredMessage])
    ensures data.Some? && AllSpace(data.value) ==> r == Failure([BlankMessage])
    ensures data.Some? && !AllSpace(data.value) && '\0' in Strip(data.value) ==> r == Failure([NullCharactersMessage])
    ensures data.Some? && !AllSpace(data.value) && '\0' !in Strip(data.value) && |Strip(data.value)| < MinPasswordLength ==>
      r == Failure([ShortPasswordMessage])
    ensures r.Success? <==>
      data.Some? && |Strip(data.value)| >= MinPasswordLength && '\0' !in Strip(data.value)
    ensures r.Success? ==> r.value == Strip(data.value)
  {
    match data
    case None => Failure([RequiredMessage])
    case Some(s) =>
      if AllSpace(s) then Failure([BlankMessage])
      else
        var v := Strip(s);
        var errors := NullCharacterErrors(v);
        if errors != [] then Failure(errors)
        else
          match ValidatePassword(v)
          case Success(p) => Success(p)
          case Failure(e) => Failure([e])
  }

  /** `UserDetailsSerializer.validate_email`: refuses an email that any user
      holds, the user being updated included. */
  function ValidateEmail(db: AccountsDb, value: string): (r: Result<string, string>)
    reads db
    ensures r.Success? <==> forall p :: p in db.users ==> db.users[p].email != Some(value)
    ensures r.Success? ==> r.value == value
    ensures r.Failure? ==> r.error == EmailTakenMessage
  {
    if exists p :: p in db.users && db.users[p].email == Some(value) then Failure(EmailTakenMessage)
    else Success(value)
  }

  /** A nullable, blank-allowed name field with a `max_length`. A blank value
      comes out as "", which is also what stripping gives. */
  function ValidateNameField(s: string, maxLength: nat): (r: Result<string, seq<string>>)
    ensures r.Success? <==> |Strip(s)| <= maxLength && '\0' !in Strip(s)
    ensures r.Success? ==> r.value == Strip(s)
    ensures r.Failure? ==> r.error == CharFieldErrors(Strip(s), maxLength)
  {
    var v := Strip(s);
    var errors := CharFieldErrors(v, maxLength);
    if errors != [] then Failure(errors) else Success(v)
  }

  /** The `email` field: stripped, checked by the field's validators, then
      by `validate_email`, which runs only when they all pass (a blank value
      reaches `validate_email` as ""). */
  function ValidateEmailField(db: AccountsDb, s: string): (r: Result<string, seq<string>>)
    reads db
    ensures r.Success? <==>
      && |Strip(s)| <= EmailMaxLength && '\0' !in Strip(s)
      && forall p :: p in db.users ==> db.users[p].email != Some(Strip(s))
    ensures r.Success? ==> r.value == Strip(s)
    ensures r.Failure? && CharFieldErrors(Strip(s), EmailMaxLength) == [] ==> r.error == [EmailTakenMessage]
    ensures r.Failure? && CharFieldErrors(Strip(s), EmailMaxLength) != [] ==>
      r.error == CharFieldErrors(Strip(s), EmailMaxLength)
  {
    var v := Strip(s);
    var errors := CharFieldErrors(v, EmailMaxLength);
    if errors != [] then Failure(errors)
    else
      match ValidateEmail(db, v)
      case Success(e) => Success(e)
      case Failure(e) => Failure([e])
  }

  /** The body of complete-profile. Each field is None when its key is absent. */
  datatype ProfileInput = ProfileInput(firstName: Option<string>, lastName: Option<string>, email: Option<string>)

  /** A serializer's `errors` for `UserDetailsSerializer`: the messages of
      each field that failed, empty for a field that did not. */
  datatype ProfileErrors = ProfileErrors(firstName: seq<string>, lastName: seq<string>, email: seq<string>)

  predicate Failed(checked: Option<Result<string, seq<string>>>) {
    checked.Some? && checked.value.Failure?
  }

  function ErrorsOf(checked: Option<Result<string, seq<string>>>): seq<string> {
    if Failed(checked) then checked.value.error else []
  }

  function ValidatedValue(checked: Option<Result<string, seq<string>>>): Option<string> {
    if checked.Some? && checked.value.Success? then Some(checked.value.value) else None
  }

  /** `UserDetailsSerializer(data=...).is_valid()`: the validated data, or
      the error of every field that failed. */
  function ValidateProfile(db: AccountsDb, input: ProfileInput): (r: Result<ProfileInput, ProfileErrors>)
    reads db
    ensures r.Success? <==>
      && (input.firstName.Some? ==> ValidateNameField(input.firstName.value, FirstNameMaxLength).Success?)
      && (input.lastName.Some? ==> ValidateNameField(input.lastName.value, LastNameMaxLength).Success?)
      && (input.email.Some? ==> ValidateEmailField(db, input.email.value).Success?)
    ensures r.Success? ==>
      && r.value.firstName == (if input.firstName.Some? then Some(Strip(input.firstName.value)) else None)
      && r.value.lastName == (if input.lastName.Some? then Some(Strip(input.lastName.value)) else None)
      && r.value.email == (if input.email.Some? then Some(Strip(input.email.value)) else None)
    ensures r.Failure? ==>
      && (r.error.firstName != [] <==>
            input.firstName.Some? && ValidateNameField(input.firstName.value, FirstNameMaxLength).Failure?)
      && (r.error.lastName != [] <==>
            input.lastName.Some? && ValidateNameField(input.lastName.value, LastNameMaxLength).Failure?)
      && (r.error.email != [] <==>
            input.email.Some? && ValidateEmailField(db, input.email.value).Failure?)
    ensures r.Failure? ==>
      && r.error.firstName == (if input.firstName.Some? && ValidateNameField(input.firstName.value, FirstNameMaxLength).Failure?
                               then ValidateNameField(input.firstName.value, FirstNameMaxLength).error else [])
      && r.error.lastName == (if input.lastName.Some? && ValidateNameField(input.lastName.value, LastNameMaxLength).Failure?
                              then ValidateNameField(input.lastName.value, LastNameMaxLength).error else [])
      && r.error.email == (if input.email.Some? && ValidateEmailField(db, input.email.value).Failure?
                           then ValidateEmailField(db, input.email.value).error else [])
  {
    // An absent field is skipped (None); a present one is validated.
    var first := if input.firstName.Some? then Some(ValidateNameField(input.firstName.value, FirstNameMaxLength)) else None;
    var last := if input.lastName.Some? then Some(ValidateNameField(input.lastName.value, LastNameMaxLength)) else None;
    var email := if input.email.Some? then Some(ValidateEmailField(db, input.email.value)) else None;
    if Failed(first) || Failed(last) || Failed(email) then
      Failure(ProfileErrors(ErrorsOf(first), ErrorsOf(last), ErrorsOf(email)))
    else
      Success(ProfileInput(ValidatedValue(first), ValidatedValue(last), ValidatedValue(email)))
  }

  /** An email that passes validation is held by no user. */
  lemma ValidatedEmailIsFree(db: AccountsDb, input: ProfileInput)
    requires ValidateProfile(db, input).Success? && ValidateProfile(db, input).value.email.Some?
    ensures forall p :: p in db.users ==> db.users[p].email != ValidateProfile(db, input).value.email
  {
    assert ValidateEmailField(db, input.email.value).Success?;
  }

  /** `UserDetailsSerializer.update`: each of the three profile fields takes
      the validated value when its key is present and keeps its old value
      otherwise; nothing else about the user, and no other row, changes. */
  method Update(db: AccountsDb, phone: string, validated: ProfileInput)
    requires db.Valid() && phone in db.users
    modifies db
    ensures db.Valid()
    ensures db.codes == old(db.codes) && db.ledger == old(db.ledger)
    ensures phone in db.users && db.users == old(db.users)[phone := db.users[phone]]
    ensures db.users[phone].firstName == (if validated.firstName.Some? then validated.firstName else old(db.users[phone].firstName))
    ensures db.users[phone].lastName == (if validated.lastName.Some? then validated.lastName else old(db.users[phone].lastName))
    ensures db.users[phone].email == (if validated.email.Some? then validated.email else old(db.users[phone].email))
    ensures db.users[phone] == old(db.users[phone]).(
      firstName := db.users[phone].firstName,
      lastName := db.users[phone].lastName,
      email := db.users[phone].email)
  {
    var instance := db.users[phone];
    instance := instance.(firstName := if validated.firstName.Some? then validated.firstName else instance.firstName);
    instance := instance.(lastName := if validated.lastName.Some? then validated.lastName else instance.lastName);
    instance := instance.(email := if validated.email.Some? then validated.email else instance.email);
    db.users := db.users[phone := instance];
  }
}
