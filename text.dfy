/** The few pieces of Python's string behaviour the accounts app relies on:
    `str(n)` for a non-negative int, `int(s)` for a string of ASCII digits,
    and `str.strip()`. */
module Text {

  predicate IsAsciiDigit(c: char) {
    '0' <= c <= '9'
  }

  predicate AllAsciiDigits(s: string) {
    forall i :: 0 <= i < |s| ==> IsAsciiDigit(s[i])
  }

  function DigitChar(d: nat): (c: char)
    requires d < 10
    ensures IsAsciiDigit(c) && c as int - '0' as int == d
  {
    ('0' as int + d) as char
  }

  function DigitValue(c: char): (d: nat)
    requires IsAsciiDigit(c)
    ensures d < 10 && DigitChar(d) == c
  {
    c as int - '0' as int
  }

  /** `str(n)`: the shortest decimal numeral of `n`. */
  function DecimalString(n: nat): (s: string)
    ensures |s| >= 1 && AllAsciiDigits(s)
    ensures s[0] == '0' <==> n == 0
    decreases n
  {
    if n < 10 then [DigitChar(n)] else DecimalString(n / 10) + [DigitChar(n % 10)]
  }

  /** `int(s)` for a string of ASCII digits (leading zeros allowed); the empty
      string, which `int` refuses, reads as 0 and never arises from `str(n)`. */
  function DecimalValue(s: string): nat
    requires AllAsciiDigits(s)
  {
    if s == [] then 0 else DecimalValue(s[..|s| - 1]) * 10 + DigitValue(s[|s| - 1])
  }

  function Pow10(k: nat): (p: nat)
    ensures p >= 1
  {
    if k == 0 then 1 else 10 * Pow10(k - 1)
  }

  /** Reading back what `str` wrote gives the number again. */
  lemma {:induction false} DecimalRoundTrip(n: nat)
    ensures DecimalValue(DecimalString(n)) == n
  {
    var s := DecimalString(n);
    if n >= 10 {
      DecimalRoundTrip(n / 10);
      assert s[..|s| - 1] == DecimalString(n / 10);
    }
  }

  /** A number with k + 1 decimal digits is written with exactly k + 1 characters. */
  lemma {:induction false} DecimalStringLength(n: nat, k: nat)
    requires Pow10(k) <= n < Pow10(k + 1)
    ensures |DecimalString(n)| == k + 1
  {
    if k > 0 {
      assert Pow10(k) == 10 * Pow10(k - 1);
      assert Pow10(k + 1) == 10 * Pow10(k);
      DecimalStringLength(n / 10, k - 1);
    }
  }

  /** The characters `str.isspace()` accepts. */
  predicate IsSpace(c: char) {
    || ('\t' <= c <= '\r')
    || ('\U{1C}' <= c <= ' ')
    || c == '\U{85}' || c == '\U{A0}' || c == '\U{1680}'
    || ('\U{2000}' <= c <= '\U{200A}')
    || c == '\U{2028}' || c == '\U{2029}' || c == '\U{202F}' || c == '\U{205F}' || c == '\U{3000}'
  }

  predicate AllSpace(s: string) {
    forall i :: 0 <= i < |s| ==> IsSpace(s[i])
  }

  /** `s.lstrip()`: drops the leading whitespace, keeps the rest. */
  function StripLeading(s: string): (r: string)
    ensures |r| <= |s| && r == s[|s| - |r|..]
    ensures AllSpace(s[..|s| - |r|])
    ensures r == [] || !IsSpace(r[0])
  {
    if s != [] && IsSpace(s[0]) then StripLeading(s[1..]) else s
  }

  /** `s.rstrip()`: drops the trailing whitespace, keeps the rest. */
  function StripTrailing(s: string): (r: string)
    ensures |r| <= |s| && r == s[..|r|]
    ensures AllSpace(s[|r|..])
    ensures r == [] || !IsSpace(r[|r| - 1])
  {
    if s != [] && IsSpace(s[|s| - 1]) then
      var init := s[..|s| - 1];
      var r := StripTrailing(init);
      assert init[..|r|] == s[..|r|];
      assert s[|r|..] == init[|r|..] + [s[|s| - 1]];
      r
    else
      assert s[|s|..] == [];
      s
  }

  /** `s.strip()`. */
  function Strip(s: string): (r: string)
    ensures |r| <= |s|
    ensures r == [] <==> AllSpace(s)
    ensures r != [] ==> !IsSpace(r[0]) && !IsSpace(r[|r| - 1])
    ensures s == [] || (!IsSpace(s[0]) && !IsSpace(s[|s| - 1])) ==> r == s
  {
    StripEmptyIffAllSpace(s);
    StripKeepsTrimmed(s);
    StripTrailing(StripLeading(s))
  }

  /** Stripping leaves nothing exactly when every character is whitespace. */
  lemma StripEmptyIffAllSpace(s: string)
    ensures StripTrailing(StripLeading(s)) == [] <==> AllSpace(s)
  {
    var t := StripLeading(s);
    var n := |s| - |t|;
    if StripTrailing(t) == [] {
      assert t[0..] == t;
      assert t == [];
      assert s[..n] == s;
    } else {
      assert t != [] && t[0] == s[n];
    }
  }

  /** A string that already starts and ends with non-whitespace is its own
      stripped form. */
  lemma StripKeepsTrimmed(s: string)
    ensures s != [] && !IsSpace(s[0]) && !IsSpace(s[|s| - 1]) ==> StripTrailing(StripLeading(s)) == s
  {
  }

  /** `lstrip` removes exactly a leading run of whitespace. */
  lemma {:induction false} StripLeadingRemovesPadding(pad: string, rest: string)
    requires AllSpace(pad) && (rest == [] || !IsSpace(rest[0]))
    ensures StripLeading(pad + rest) == rest
  {
    if pad == [] {
      assert pad + rest == rest;
    } else {
      assert (pad + rest)[1..] == pad[1..] + rest;
      StripLeadingRemovesPadding(pad[1..], rest);
    }
  }

  /** `rstrip` removes exactly a trailing run of whitespace. */
  lemma {:induction false} StripTrailingRemovesPadding(rest: string, pad: string)
    requires AllSpace(pad) && (rest == [] || !IsSpace(rest[|rest| - 1]))
    ensures StripTrailing(rest + pad) == rest
  {
    if pad == [] {
      assert rest + pad == rest;
    } else {
      assert (rest + pad)[..|rest + pad| - 1] == rest + pad[..|pad| - 1];
      StripTrailingRemovesPadding(rest, pad[..|pad| - 1]);
    }
  }

  /** `strip` gives back the text between the leading and trailing whitespace. */
  lemma StripRemovesPadding(lead: string, text: string, trail: string)
    requires AllSpace(lead) && AllSpace(trail)
    requires text != [] && !IsSpace(text[0]) && !IsSpace(text[|text| - 1])
    ensures Strip(lead + text + trail) == text
  {
    assert lead + text + trail == lead + (text + trail);
    StripLeadingRemovesPadding(lead, text + trail);
    StripTrailingRemovesPadding(text, trail);
  }
}
