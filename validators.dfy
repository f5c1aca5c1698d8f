/** achareh/accounts/validators.py: the national mobile-number check. */
module Validators {
  import opened Wrappers
  import opened Text

  /** Django's `ValidationError`, carrying its message. */
  datatype ValidationError = ValidationError(message: string)

  const InvalidMobileMessage: string := "The phone number must be a valid."

  /** The regex fragment `[0-9]{k}` at the start of `s`: the rest of `s` after
      exactly k ASCII digits, or None when they are not there. */
  function MatchDigits(s: string, k: nat): (rest: Option<string>)
    ensures rest.Some? <==> k <= |s| && AllAsciiDigits(s[..k])
    ensures rest.Some? ==> rest.value == s[k..]
  {
    if k == 0 then
      assert s[..0] == [] && s[0..] == s;
      Some(s)
    else if s != [] && IsAsciiDigit(s[0]) then
      assert k <= |s| ==> s[..k] == [s[0]] + s[1..][..k - 1];
      assert k <= |s| ==> s[k..] == s[1..][k - 1..];
      MatchDigits(s[1..], k - 1)
    else
      assert k <= |s| ==> s[..k][0] == s[0];
      None
  }

  /** Python's `$` outside MULTILINE mode: the end of the string, or the
      position just before one newline that ends it. */
  predicate AtEnd(rest: string) {
    rest == "" || rest == "\n"
  }

  /** `re.match(r'^09[0-9]{9}$', value)` succeeds, step by step as the
      pattern reads: `^`, `0`, `9`, nine digits, `$`. */
  predicate MatchesMobilePattern(value: string) {
    && |value| >= 2 && value[0] == '0' && value[1] == '9'
    && match MatchDigits(value[2..], 9)
       case Some(rest) => AtEnd(rest)
       case None => false
  }

  /** `validate_iranian_mobile`: returns with no effect (Pass) on an accepted
      value and raises `ValidationError` otherwise. The accepted values are
      exactly "09" followed by nine ASCII digits, optionally followed by a
      single newline that `$` lets through. */
  function ValidateIranianMobile(value: string): (r: Outcome<ValidationError>)
    ensures r.Pass? <==>
      && (|value| == 11 || (|value| == 12 && value[11] == '\n'))
      && value[..2] == "09"
      && AllAsciiDigits(value[2..11])
    ensures r.Fail? ==> r.error == ValidationError(InvalidMobileMessage)
  {
    assert MatchesMobilePattern(value) <==>
      && (|value| == 11 || (|value| == 12 && value[11] == '\n'))
      && value[..2] == "09"
      && AllAsciiDigits(value[2..11])
    by {
      if |value| >= 11 {
        assert value[2..][..9] == value[2..11];
        assert value[2..][9..] == value[11..];
        assert |value| == 12 ==> value[11..] == [value[11]];
      }
      if |value| >= 2 {
        assert value[..2] == "09" <==> value[0] == '0' && value[1] == '9';
      }
    }
    if MatchesMobilePattern(value) then Pass else Fail(ValidationError(InvalidMobileMessage))
  }

  /** Completeness: every "09" + nine digits is accepted, with or without the
      trailing newline. */
  lemma {:induction false} NationalNumbersAccepted(digits: string)
    requires |digits| == 9 && AllAsciiDigits(digits)
    ensures ValidateIranianMobile("09" + digits).Pass?
    ensures ValidateIranianMobile("09" + digits + "\n").Pass?
  {
    var v := "09" + digits;
    assert v[2..11] == digits;
    assert (v + "\n")[2..11] == digits;
  }

  /** Every accepted value starts with "09" and is not longer than 12 characters;
      when it has 12, the last one is the newline. */
  lemma AcceptedValuesAreMobileNumbers(value: string)
    requires ValidateIranianMobile(value).Pass?
    ensures value[0] == '0' && value[1] == '9'
    ensures forall i :: 2 <= i < 11 ==> IsAsciiDigit(value[i])
    ensures |value| == 11 || |value| == 12
    ensures |value| == 12 ==> value[11] == '\n'
  {
  }
}
