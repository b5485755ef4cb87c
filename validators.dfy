/** The client-side field validators and the phone formatter of the site's
    script: `validatePhone`, `validateEmail`, `validateName`, `formatPhone`.
    Each regular expression is given twice: as the predicate the script
    evaluates and as the set of strings the expression denotes, with a lemma
    that the two agree. */
module Validators {
  import opened Text

  /** `\d`: an ASCII digit. */
  predicate IsDigit(c: char) {
    '0' <= c <= '9'
  }

  predicate AllDigits(s: string) {
    forall i :: 0 <= i < |s| ==> IsDigit(s[i])
  }

  /** `[\d]{10}` */
  predicate IsTenDigits(s: string) {
    |s| == 10 && AllDigits(s)
  }

  // ---------------------------------------------------------------- phone

  /** `validatePhone`: after the separators are stripped, the value is ten
      digits, or `7` or `8` and ten digits, or `+7` and ten digits -- the
      three ways `^(\+?7|8)?[\d]{10}$` can match. */
  predicate ValidatePhone(phone: string)
    ensures ValidatePhone(phone) ==> 10 <= |StripSeparators(phone)| <= 12
  {
    var c := StripSeparators(phone);
    IsTenDigits(c)
    || (|c| == 11 && (c[0] == '7' || c[0] == '8') && IsTenDigits(c[1..]))
    || (|c| == 12 && c[0] == '+' && c[1] == '7' && IsTenDigits(c[2..]))
  }

  /** The alternatives of the optional group `(\+?7|8)?`. */
  predicate IsPhonePrefix(p: string) {
    p == "" || p == "+7" || p == "7" || p == "8"
  }

  /** The language of `^(\+?7|8)?[\d]{10}$`: an optional prefix followed by
      exactly ten digits. */
  ghost predicate MatchesPhonePattern(s: string)
    ensures MatchesPhonePattern(s) ==> 10 <= |s| <= 12
  {
    exists k :: 0 <= k <= |s| && IsPhonePrefix(s[..k]) && IsTenDigits(s[k..])
  }

  /** `validatePhone` accepts exactly the numbers whose stripped form is in
      the language of its regular expression. */
  lemma PhoneAccepts(phone: string)
    ensures ValidatePhone(phone) <==> MatchesPhonePattern(StripSeparators(phone))
  {
    var c := StripSeparators(phone);
    if ValidatePhone(phone) {
      if IsTenDigits(c) {
        assert c[..0] == "" && c[0..] == c;
      } else if |c| == 11 {
        assert c[..1] == [c[0]];
      } else {
        assert c[..2] == [c[0], c[1]];
      }
    }
    if MatchesPhonePattern(c) {
      var k :| 0 <= k <= |c| && IsPhonePrefix(c[..k]) && IsTenDigits(c[k..]);
      assert |c[..k]| == k;
      if k == 0 {
        assert c[k..] == c;
      } else if k == 2 {
        assert c[0] == c[..k][0] && c[1] == c[..k][1];
      } else {
        assert c[0] == c[..k][0];
      }
    }
  }

  /** A `+` not followed by `7` is refused, even before ten digits. */
  lemma PlusWithoutSevenRejected(d: string)
    requires IsTenDigits(d)
    ensures !ValidatePhone("+" + d)
  {
    assert NoSeparators("+" + d) by {
      forall i | 0 <= i < |"+" + d| ensures !IsSeparator(("+" + d)[i]) {
        if i > 0 { assert ("+" + d)[i] == d[i - 1]; }
      }
    }
  }

  // ---------------------------------------------------------------- email

  /** `[^\s@]` */
  predicate IsEmailChar(c: char) {
    !IsSpace(c) && c != '@'
  }

  predicate AllEmailChars(s: string) {
    forall i :: 0 <= i < |s| ==> IsEmailChar(s[i])
  }

  /** The language of `^[^\s@]+@[^\s@]+\.[^\s@]+$`. */
  ghost predicate MatchesEmailPattern(e: string)
    ensures MatchesEmailPattern(e) ==> |e| >= 5 && '@' in e
  {
    exists a, b :: 0 < a && a + 1 < b && b + 1 < |e| && e[a] == '@' && e[b] == '.'
                   && AllEmailChars(e[..a]) && AllEmailChars(e[a + 1..b]) && AllEmailChars(e[b + 1..])
  }

  /** The domain part has a dot that is neither its first nor its last
      character. */
  predicate HasInnerDot(d: string) {
    exists k :: 1 <= k < |d| - 1 && d[k] == '.'
  }

  /** `validateEmail`: no whitespace, exactly one `@` with something before
      it, and after it a dot that is not at either end. */
  predicate ValidateEmail(e: string)
    ensures ValidateEmail(e) ==> |e| >= 5 && '@' in e && e[0] != '@' && e[|e| - 1] != '@'
  {
    var at := IndexOf(e, '@');
    NoSpace(e) && 0 < at < |e| && '@' !in e[at + 1..] && HasInnerDot(e[at + 1..])
  }

  /** Every address `validateEmail` accepts is in the language of its
      regular expression. */
  lemma EmailAcceptsOnlyPattern(e: string)
    requires ValidateEmail(e)
    ensures MatchesEmailPattern(e)
  {
    var a := IndexOf(e, '@');
    var d := e[a + 1..];
    var k :| 1 <= k < |d| - 1 && d[k] == '.';
    var b := a + 1 + k;
    assert e[b] == '.';
    var local, host, top := e[..a], e[a + 1..b], e[b + 1..];
    assert AllEmailChars(local);
    assert AllEmailChars(host) by {
      forall i | 0 <= i < |host| ensures IsEmailChar(host[i]) {
        assert host[i] == d[i];
      }
    }
    assert AllEmailChars(top) by {
      forall i | 0 <= i < |top| ensures IsEmailChar(top[i]) {
        assert top[i] == d[k + 1 + i];
      }
    }
  }

  /** Every address in the language of the regular expression is accepted
      by `validateEmail`. */
  lemma PatternAcceptedByEmail(e: string)
    requires MatchesEmailPattern(e)
    ensures ValidateEmail(e)
  {
    var a, b :| 0 < a && a + 1 < b && b + 1 < |e| && e[a] == '@' && e[b] == '.'
                && AllEmailChars(e[..a]) && AllEmailChars(e[a + 1..b]) && AllEmailChars(e[b + 1..]);
    var local, host, top := e[..a], e[a + 1..b], e[b + 1..];
    forall i | 0 <= i < |e| ensures !IsSpace(e[i]) && (i != a ==> e[i] != '@') {
      if i < a { assert e[i] == local[i]; }
      else if a < i < b { assert e[i] == host[i - (a + 1)]; }
      else if b < i { assert e[i] == top[i - (b + 1)]; }
    }
    assert IndexOf(e, '@') == a;
    var d := e[a + 1..];
    assert d[b - (a + 1)] == '.';
    assert '@' !in d by {
      forall i | 0 <= i < |d| ensures d[i] != '@' { assert d[i] == e[a + 1 + i]; }
    }
  }

  /** `validateEmail` accepts exactly the language of its regular
      expression. */
  lemma EmailAccepts(e: string)
    ensures ValidateEmail(e) <==> MatchesEmailPattern(e)
  {
    if ValidateEmail(e) { EmailAcceptsOnlyPattern(e); }
    if MatchesEmailPattern(e) { PatternAcceptedByEmail(e); }
  }

  // ----------------------------------------------------------------- name

  /** `[а-яА-ЯёЁa-zA-Z]`: the Cyrillic ranges U+0430..U+044F and
      U+0410..U+042F, the letters U+0451 and U+0401, and ASCII letters. */
  predicate IsNameLetter(c: char) {
    || ('\U{0430}' <= c <= '\U{044F}')
    || ('\U{0410}' <= c <= '\U{042F}')
    || c == '\U{0451}' || c == '\U{0401}'
    || ('a' <= c <= 'z') || ('A' <= c <= 'Z')
  }

  /** `validateName`: the trimmed name has at least two characters and
      every one of them is a letter of the class or whitespace. An accepted
      name therefore begins and ends with a letter. */
  predicate ValidateName(name: string)
    ensures ValidateName(name) ==>
              var t := Trim(name); |t| >= 2 && IsNameLetter(t[0]) && IsNameLetter(t[|t| - 1])
  {
    var t := Trim(name);
    |t| >= 2 && forall i :: 0 <= i < |t| ==> IsNameLetter(t[i]) || IsSpace(t[i])
  }

  /** No validator accepts an empty input, so a form never reports a field
      as both missing and valid. */
  lemma EmptyInputsInvalid()
    ensures !ValidateName("") && !ValidatePhone("") && !ValidateEmail("")
  {
    assert StripSeparators("") == "";
  }

  /** The forms trim a name before calling `validateName`, which trims it
      again: the second trim changes nothing. */
  lemma ValidateNameOfTrimmed(name: string)
    ensures ValidateName(Trim(name)) == ValidateName(name)
  {
    TrimIdempotent(name);
  }

  // --------------------------------------------------------------- format

  /** `formatPhone`: the stripped value with its prefix rewritten to `+7`.
      The result always starts with `+` and has no separators left. */
  function FormatPhone(phone: string): (r: string)
    ensures |r| > 0 && r[0] == '+'
    ensures NoSeparators(r)
  {
    var c := StripSeparators(phone);
    if |c| > 0 && c[0] == '8' then "+7" + c[1..]
    else if |c| > 0 && c[0] == '7' then "+" + c
    else if !(|c| > 0 && c[0] == '+') then "+7" + c
    else c
  }

  /** Formatting an already formatted number returns it unchanged. */
  lemma FormatPhoneIdempotent(phone: string)
    ensures FormatPhone(FormatPhone(phone)) == FormatPhone(phone)
  {
  }

  /** The ten digits a valid number ends with (its national number). */
  function NationalNumber(phone: string): (d: string)
    requires ValidatePhone(phone)
    ensures IsTenDigits(d)
  {
    var c := StripSeparators(phone);
    c[|c| - 10..]
  }

  /** Ten digits with no prefix whose first digit is `7` or `8`: the
      numbers `formatPhone` mistakes for prefixed ones. */
  predicate BareDomesticNumber(phone: string) {
    var c := StripSeparators(phone);
    IsTenDigits(c) && (c[0] == '7' || c[0] == '8')
  }

  /** Every valid number written with a `+7`, `7` or `8` prefix, and every
      bare ten-digit number that starts with neither `7` nor `8`, is
      formatted as `+7` followed by its ten-digit national number. */
  lemma FormatPhoneOfValid(phone: string)
    requires ValidatePhone(phone)
    requires !BareDomesticNumber(phone)
    ensures FormatPhone(phone) == "+7" + NationalNumber(phone)
  {
    var c := StripSeparators(phone);
    assert NationalNumber(phone) == c[|c| - 10..];
    if |c| == 10 {
      assert IsDigit(c[0]) && c[0] != '7' && c[0] != '8';
      assert c[|c| - 10..] == c;
    } else if |c| == 11 {
      if c[0] == '7' {
        assert "+" + c == "+7" + c[1..];
      }
    } else {
      assert c[0] == '+' && c[1] == '7';
      assert c == "+7" + c[2..];
    }
  }

  /** A bare ten-digit number that starts with `7` or `8` passes
      `validatePhone`, but `formatPhone` takes its first digit for a prefix:
      the result has only nine digits after `+7` and no longer validates. */
  lemma FormatPhoneDropsDigit(phone: string)
    requires BareDomesticNumber(phone)
    ensures ValidatePhone(phone)
    ensures FormatPhone(phone) == "+7" + StripSeparators(phone)[1..]
    ensures |FormatPhone(phone)| == 11
    ensures !ValidatePhone(FormatPhone(phone))
  {
    var c := StripSeparators(phone);
    if c[0] == '7' {
      assert "+" + c == "+7" + c[1..];
    }
  }

  /** The phone formatter with the bare ten-digit case handled before the
      prefix rewriting: a ten-digit number is always a national number. */
  function NormalizePhone(phone: string): (r: string)
    ensures |r| > 0 && r[0] == '+'
    ensures NoSeparators(r)
  {
    var c := StripSeparators(phone);
    if IsTenDigits(c) then "+7" + c else FormatPhone(phone)
  }

  /** Every valid number is normalised to `+7` followed by its national
      number, which is itself valid and normalised to itself. */
  lemma NormalizePhoneCanonical(phone: string)
    requires ValidatePhone(phone)
    ensures NormalizePhone(phone) == "+7" + NationalNumber(phone)
    ensures ValidatePhone(NormalizePhone(phone))
    ensures NormalizePhone(NormalizePhone(phone)) == NormalizePhone(phone)
  {
    var c := StripSeparators(phone);
    if !IsTenDigits(c) {
      FormatPhoneOfValid(phone);
    }
    var r := NormalizePhone(phone);
    assert StripSeparators(r) == r;
    assert r[2..] == NationalNumber(phone);
  }

  /** The corrected formatter differs from `formatPhone` exactly on the
      bare ten-digit numbers that start with `7` or `8`. */
  lemma NormalizeAgreesWithFormat(phone: string)
    ensures NormalizePhone(phone) != FormatPhone(phone) <==> BareDomesticNumber(phone)
  {
    if BareDomesticNumber(phone) {
      FormatPhoneDropsDigit(phone);
    }
  }
}
