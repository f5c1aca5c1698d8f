# Phone-number OTP authentication of the `accounts` app, modelled in Dafny

The `accounts` app of the Achareh backend signs users in by mobile phone
number. `register` stores a six-digit one-time code for the number; `verify`
consumes a matching, unexpired code, creates the user on first use (with an
unusable password) and returns a session token pair; `set-password` and
`complete-profile` then fill in the account; `login` checks a password.
Every wrong code and every wrong password for a known user is appended to a
failed-attempt table, and a (client address, phone number, attempt type)
triple with three such records in the last hour is refused with 403. A
periodic job deletes failed-attempt records older than five days.

The model keeps the three tables in one object, `Models.AccountsDb`: users
and verification codes as maps keyed by their unique `phone_number` column,
the failed-attempt table as a sequence in insertion order. Each view's `post`
is a method that reads and updates that object step by step in the order
the view does, and answers a status with a body. `is_blocked`, the
validators and the serializer checks are functions. Time is an integer
clock in microseconds (the resolution of the app's datetimes), passed to
each request as `now`; the random code is a nondeterministic choice in
[100000, 999999]. Password hashing is a credential that is either unusable
or checks true for exactly the password it was set from; token minting is
an opaque pair naming the user.

Modules: `Wrappers` (Option, Result, Outcome), `Text` (Python's `str(n)`,
`int(s)` and `str.strip()`), `Validators`, `Models`, `Serializers`,
`Views`, `Tasks` (one per source file), and `Scenarios` (request sequences
on a fresh database, with their outcomes proved).

Behaviour of the code as written that the model keeps:

- `RegisterView.post` never runs `RegisterSerializer`, so it sends a code to
  any non-empty phone string, badly formed or already registered
  (`Scenarios.RegisterSkipsTheFormatCheck`). No view runs
  `validate_iranian_mobile`: `LoginSerializer` declares it
  (serializers.py:21-23), but `LoginView` never instantiates that serializer
  (views.py:124-131).
- `LoginView` records no failure when the phone number is unknown, so
  unknown numbers are never blocked; the answer is identical to a wrong
  password (`Scenarios.UnknownPhoneLooksLikeWrongPassword`).
- At the instant a code expires, Register's purge (`expires_at < now`) keeps
  it and answers "already sent", while Verify's `is_valid` (`now <
  expires_at`) rejects it (`Scenarios.ExpiryInstantRequests`).
- The password field of `PasswordSerializer` is a REST-framework `CharField`,
  which strips surrounding whitespace, so a padded password is stored
  stripped while `LoginView` compares the raw string
  (`Scenarios.PaddedPasswordIsStoredStripped`).
- `CompleteProfileView` assigns `validated_data.get(...)` to the three
  profile fields itself, so a field missing from the request becomes NULL;
  `UserDetailsSerializer.update`, which keeps missing fields, is never used
  by the view. `validate_email` refuses an email that the user being
  updated already holds.
- `is_admin`, set by `create_superuser`, is not a column of `CustomUser`: it
  lives on the returned object only and is not stored.

## Model

| member | source | states |
|---|---|---|
| `Validators.ValidateIranianMobile` | achareh/accounts/validators.py:5-8 | Accepts exactly "09" followed by nine ASCII digits, optionally followed by one newline that Python's `$` lets through; raises `ValidationError` with the source's message otherwise |
| `Validators.MatchDigits` | achareh/accounts/validators.py:6 | The pattern piece `[0-9]{k}` matches iff the next k characters are ASCII digits, and leaves the rest of the string |
| `Validators.MatchesMobilePattern` | achareh/accounts/validators.py:6-7 | `re.match` of the pattern, read left to right: `^`, "0", "9", nine digits, then the end of the string or one final newline |
| `Validators.NationalNumbersAccepted` | achareh/accounts/validators.py:6-7 | Completeness: every "09" + nine digits is accepted, with and without a trailing newline |
| `Validators.AcceptedValuesAreMobileNumbers` | achareh/accounts/validators.py:6-7 | Every accepted value starts with "09", has digits in positions 2-10, and a twelfth character only if it is the newline |
| `Text.DecimalString` | achareh/accounts/models.py:59 | `str(n)` is a non-empty digit string whose first digit is 0 only for n = 0 |
| `Text.DecimalRoundTrip` | achareh/accounts/models.py:59 | Reading back the decimal string gives the number again |
| `Text.DecimalStringLength` | achareh/accounts/models.py:59 | A number between 10^k and 10^(k+1) - 1 prints with exactly k + 1 digits |
| `Text.Strip` | achareh/accounts/serializers.py:27 | The field's whitespace stripping: empty exactly for all-whitespace input, never starts or ends with whitespace, leaves already-trimmed input unchanged |
| `Text.StripRemovesPadding` | achareh/accounts/serializers.py:27 | Stripping whitespace + text + whitespace gives the text back |
| `Text.StripLeadingRemovesPadding` | achareh/accounts/serializers.py:27 | Left stripping removes exactly a leading whitespace run |
| `Text.StripTrailingRemovesPadding` | achareh/accounts/serializers.py:27 | Right stripping removes exactly a trailing whitespace run |
| `Models.MakePassword` | achareh/accounts/models.py:10-14 | `set_password(raw)` makes a credential that checks true for exactly `raw`; `set_password(None)` makes one that never checks true |
| `Models.CheckPassword` | achareh/accounts/views.py:140 | `check_password(attempt)` holds iff the credential is usable and was set from exactly `attempt`; an unusable password never matches |
| `Models.ExpirationTime` | achareh/accounts/models.py:48-49 | `get_expiration_time` is five minutes after the instant it is read, and so strictly later |
| `Models.IsValid` | achareh/accounts/models.py:63-64 | `is_valid` holds iff now < expires_at, strictly: false at the expiry instant itself |
| `Models.UsersKeyed` | achareh/accounts/models.py:31 | The unique `phone_number` column of the user table: each user is stored under its own phone number, which is never empty |
| `Models.AccountsDb.Valid` | achareh/accounts/models.py:53 | The unique `phone_number` columns of both tables: users keyed as `UsersKeyed` says (models.py:31), each code stored under its own phone number, so each number has at most one user and at most one code |
| `Models.GeneratedCodeShape` | achareh/accounts/models.py:58-59 | Every number in [100000, 999999] prints as six digits with a nonzero first digit and reads back as itself |
| `Models.Label` | achareh/accounts/models.py:66-67 | `__str__` is the phone number, then " - ", then the code |
| `Models.AccountsDb.CreateUser` | achareh/accounts/models.py:10-16 | Empty phone: `ValueError`, nothing created; phone already held: unique-constraint failure, nothing created; otherwise exactly one new user with that phone, default flags and the credential from the password |
| `Models.AccountsDb.CreateSuperuser` | achareh/accounts/models.py:18-24 | Fails as `create_user` does; otherwise stores the new user with `is_staff` and `is_superuser` set and returns `is_admin` true |
| `Models.AccountsDb.CreateVerificationCode` | achareh/accounts/models.py:48-56 | A new row for the phone, created now, expiring at now + 5 minutes by default; a second row for the same phone is a unique-constraint failure |
| `Models.AccountsDb.GenerateCode` | achareh/accounts/models.py:58-61 | The code becomes the decimal string of some number in [100000, 999999], the expiry now + 5 minutes, nothing else changes |
| `Models.AccountsDb.RecordFailure` | achareh/accounts/models.py:70-74 | Appends exactly one failed-attempt record stamped now |
| `Serializers.ValidatePhoneNumber` | achareh/accounts/serializers.py:9-13 | Refuses a phone number some user holds and returns it unchanged otherwise |
| `Serializers.ValidatePassword` | achareh/accounts/serializers.py:29-33 | Refuses fewer than 8 characters, returns every longer value unchanged |
| `Serializers.NullCharacterErrors` | achareh/accounts/serializers.py:27 | The `CharField`'s null-character validator: reports "Null characters are not allowed." exactly when the value holds U+0000 |
| `Serializers.CharFieldErrors` | achareh/accounts/models.py:32-33 | A `CharField` with a `max_length`: reports the length message exactly when the value is too long and the null-character message exactly when it holds U+0000, and nothing else |
| `Serializers.ValidatePasswordField` | achareh/accounts/serializers.py:26-33 | The whole field: absent is ["required"], all-whitespace is ["blank"], a null character is refused before `validate_password` runs; accepted iff the stripped value has at least 8 characters and no U+0000, and then yields the stripped value |
| `Serializers.ValidateEmail` | achareh/accounts/serializers.py:41-46 | Refuses an email any user holds, the user being updated included; returns it unchanged otherwise |
| `Serializers.ValidateNameField` | achareh/accounts/models.py:32-33 | A name is accepted iff its stripped form fits the column's `max_length` and holds no U+0000, and yields the stripped form; otherwise the errors are the field validators' messages |
| `Serializers.ValidateEmailField` | achareh/accounts/serializers.py:41-46 | The stripped email is accepted iff it fits 254 characters, holds no U+0000 and no user holds it; `validate_email`'s message appears only when the field validators pass |
| `Serializers.ValidateProfile` | achareh/accounts/serializers.py:36-46 | Valid iff every present field passes its check; valid data holds the stripped values of the present fields only; the error record carries a message for exactly the failing fields |
| `Serializers.ValidatedEmailIsFree` | achareh/accounts/serializers.py:41-46 | An email in accepted profile data is held by no user at validation time |
| `Serializers.Update` | achareh/accounts/serializers.py:48-55 | Each of first name, last name and email takes the new value when present and keeps its old value when absent; nothing else changes |
| `Views.IsBlocked` | achareh/accounts/views.py:18-25 | Blocked iff at least 3 records match the exact (address, phone, type) triple with a timestamp no earlier than one hour ago |
| `Views.CountsToward` | achareh/accounts/views.py:19-24 | The filter of `is_blocked`: same address, same phone, same attempt type, and a timestamp no earlier than one hour before now |
| `Views.RecentFailures` | achareh/accounts/views.py:19-25 | `count()` of that filter: never more than the table's length, and equal to the number of selected records (`Views.RecentFailuresCountsRecords`) |
| `Views.RecentFailuresCountsRecords` | achareh/accounts/views.py:19-25 | The count equals the number of records the filter selects |
| `Views.FailureAppended` | achareh/accounts/views.py:19-25 | A new record raises the count by one exactly when it matches the triple and window |
| `Views.ThirdFailureBlocks` | achareh/accounts/views.py:25 | With two matching failures the triple is not blocked; a third one blocks it |
| `Views.WindowIncludesItsEdge` | achareh/accounts/views.py:23 | A record exactly one hour old counts; one a microsecond older does not |
| `Views.StaleFailuresNeverBlock` | achareh/accounts/views.py:23-25 | Records all older than an hour never block, however many there are |
| `Views.WindowSlides` | achareh/accounts/views.py:23 | Without new failures the count never rises as time passes |
| `Views.ExpiryInstant` | achareh/accounts/views.py:43 | At the expiry instant a code is neither purged by Register nor valid for Verify |
| `Views.Expired` | achareh/accounts/views.py:43 | The purge filter `expires_at__lt=now`: strictly after the expiry instant |
| `Views.Register` | achareh/accounts/views.py:31-60 | Missing or empty phone: 400; blocked for verification: 403; in both no store changes. Otherwise only that phone's expired code is purged; a remaining code gives 400 and is kept; else exactly one fresh six-digit code expiring at now + 5 minutes is stored and returned. Users and failures never change |
| `Views.VerifyCode` | achareh/accounts/views.py:66-103 | 200 iff both fields given, not blocked, and the phone's code equals the submitted one, was created at most 5 minutes ago and is still valid. On 200 the code is deleted, the user exists, a new user has an unusable password, an existing user is unchanged. On a 400 for a wrong code exactly one verification failure is appended and the codes are unchanged |
| `Views.FindCode` | achareh/accounts/views.py:78-82 | Finds the phone's code only when its code equals the submitted one and it was created no earlier than 5 minutes before now; finds nothing otherwise |
| `Views.FreshnessFollowsFromValidity` | achareh/accounts/views.py:81-84 | For a code issued under one clock reading, validity already implies creation within the last 5 minutes |
| `Views.LateExpiryLeavesValidCodeStale` | achareh/accounts/models.py:55-60 | A code whose expiry lies two or more microseconds past creation + 5 minutes has an instant at which it is valid yet fails the freshness filter of views.py:81 |
| `Views.SetPassword` | achareh/accounts/views.py:110-118 | 200 iff the password is present, at least 8 characters once stripped and free of U+0000; then the credential checks true for exactly the stripped password; otherwise 400 with the field's error list and no change |
| `Views.Login` | achareh/accounts/views.py:124-152 | Block checked before the password; 200 with tokens iff not blocked and the user exists with that password; a wrong password appends exactly one login failure; an unknown phone answers the same 400 and appends nothing; users and codes never change |
| `Views.FreshEmailKeepsUnique` | achareh/accounts/serializers.py:41-46 | Giving a user an email nobody holds keeps set emails unique |
| `Views.CompleteProfile` | achareh/accounts/views.py:159-169 | 200 iff the serializer accepts; then the three fields become the validated values, absent ones NULL, and set emails stay unique; otherwise 400 with the field errors and no change |
| `Tasks.Surviving` | achareh/accounts/tasks.py:12 | After pruning no record is older than the threshold, every record at or after it survives, and survivors come from the table |
| `Tasks.RemovedAreTheOldRecords` | achareh/accounts/tasks.py:12-13 | The number of records removed equals the number stamped before the threshold |
| `Tasks.SurvivingSplits` | achareh/accounts/tasks.py:12 | Pruning a concatenation prunes each part in order, so survivors keep their relative order and contents |
| `Tasks.PruningIsIdempotent` | achareh/accounts/tasks.py:9-12 | A second run at the same time deletes nothing |
| `Tasks.NothingOldNothingRemoved` | achareh/accounts/tasks.py:12 | The job leaves the table unchanged iff no record is older than the threshold |
| `Tasks.SurvivorsAreAll` | achareh/accounts/tasks.py:12 | With no old record every record survives |
| `Tasks.PruningKeepsRecentFailures` | achareh/accounts/tasks.py:12 | Pruning below a threshold at or before the window start leaves every `is_blocked` count unchanged |
| `Tasks.RetentionKeepsBlocks` | achareh/accounts/tasks.py:9 | A run of the job never changes whether a triple is blocked, at the run's time or later |
| `Tasks.DeleteOldFailedAttempts` | achareh/accounts/tasks.py:7-13 | The table becomes its records not older than five days, in order; the count is the number removed and the message reports it |
| `Scenarios.CodeIsUsedOnce` | achareh/accounts/views.py:85-103 | Register then Verify succeeds once; the same code is refused afterwards; the created user cannot log in by password |
| `Scenarios.ThreeFailuresBlockTheRightPassword` | achareh/accounts/views.py:134-150 | After three wrong passwords within the hour the right password gets 403; an hour after the last failure it works |
| `Scenarios.FailuresPileUp` | achareh/accounts/views.py:18-25 | One, two and three wrong logins a minute apart are counted as 1, 2 and 3 recent failures |
| `Scenarios.UnknownPhoneLooksLikeWrongPassword` | achareh/accounts/views.py:147-152 | Unknown phone and wrong password give identical responses |
| `Scenarios.ExpiryInstantRequests` | achareh/accounts/views.py:43-45 | At the expiry instant Verify refuses and Register answers "already sent"; a microsecond later Register sends a new code |
| `Scenarios.RegisterSkipsTheFormatCheck` | achareh/accounts/views.py:31-49 | Register sends a code to a phone string the mobile validator rejects |
| `Scenarios.PaddedSecretStrips` | achareh/accounts/serializers.py:27 | The padded password strips to the unpadded one, which differs from it |
| `Scenarios.PaddedPasswordIsStoredStripped` | achareh/accounts/serializers.py:27 | A password set with surrounding spaces does not log in as typed, only stripped |

## Left out

- HTTP routing (`urls.py`), request parsing, `REMOTE_ADDR` lookup and the REST framework's response objects: a request is its fields as parameters, a response a status and body datatype. Request values are strings; JSON numbers, nulls and other types are not modelled.
- Token minting by the JWT library and the token refresh/verify endpoints: a token pair is an opaque value naming the user.
- Password hashing: modelled as a credential that checks true for exactly its own password; hash formats and hasher upgrades are not modelled.
- The database engine: rows are map entries and sequence elements; column `max_length` limits the database may enforce on save (11 characters for a failed attempt's phone number, for one) are not modelled. The serializer-side `max_length` checks of the profile fields are.
- `EmailField`'s format validation (Django's email validator) is not modelled: every string is taken as well-formed.
- The request's several reads of the clock are one `now` per request; real time and `random.randint` are replaced by the `now` parameter and a nondeterministic choice.
- SMS delivery and `print(code)`: I/O, left out.
- Concurrency: the duplicate-key race between Register's existence check and its insert, the get-or-create race in Verify, and several failures passing `is_blocked` together are not modelled; requests run one at a time. The Celery scheduling of the retention job is left out; a run is one call.
- `AbstractBaseUser` and `PermissionsMixin` fields other than the flags (last login, groups, permissions) and `get_by_natural_key` are not modelled. `is_active` is never read by the views; it is kept at its default.
- `Views.FreshnessFollowsFromValidity`: holds because each request reads the clock once, so a stored code expires exactly 5 minutes after its creation. In the source, the insert stamps `created_at` (views.py:49, models.py:55) and `generate_code` reads the clock again for `expires_at` (models.py:60), so only `expires_at >= created_at + 5 min` is guaranteed, and a code still valid can fail the `created_at__gte` filter in that gap (`Views.LateExpiryLeavesValidCodeStale`).
- `ProhibitSurrogateCharactersValidator`, which every `CharField` also runs, is not modelled: Dafny strings cannot hold surrogate code points.
- `Text.IsSpace`: follows `str.isspace()` for all the whitespace code points Python lists; there is no other Unicode handling.
