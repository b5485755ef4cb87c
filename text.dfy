/** String helpers that the client-side validators are built from: the
    JavaScript whitespace class, `String.prototype.trim`, the separator
    stripping done before phone checks, `indexOf`, and ordering of strings. */
module Text {

  /** The characters matched by `\s` in a JavaScript regular expression,
      which are also the ones `trim` removes (ECMAScript WhiteSpace and
      LineTerminator). */
  predicate IsSpace(c: char) {
    || c == '\t' || c == '\n' || c == '\U{000B}' || c == '\U{000C}' || c == '\r'
    || c == ' ' || c == '\U{00A0}' || c == '\U{1680}'
    || ('\U{2000}' <= c <= '\U{200A}')
    || c == '\U{2028}' || c == '\U{2029}' || c == '\U{202F}' || c == '\U{205F}'
    || c == '\U{3000}' || c == '\U{FEFF}'
  }

  predicate AllSpace(s: string) {
    forall i :: 0 <= i < |s| ==> IsSpace(s[i])
  }

  predicate NoSpace(s: string) {
    forall i :: 0 <= i < |s| ==> !IsSpace(s[i])
  }

  /** The class `[\s\-\(\)]` removed from phone numbers. */
  predicate IsSeparator(c: char) {
    IsSpace(c) || c == '-' || c == '(' || c == ')'
  }

  predicate NoSeparators(s: string) {
    forall i :: 0 <= i < |s| ==> !IsSeparator(s[i])
  }

  /** `s.replace(/[\s\-\(\)]/g, '')`: every separator removed, every other
      character kept in order. */
  function StripSeparators(s: string): (r: string)
    ensures NoSeparators(r)
    ensures |r| <= |s|
    ensures NoSeparators(s) ==> r == s
    ensures |s| == 1 && IsSeparator(s[0]) ==> r == []
  {
    if s == [] then []
    else if IsSeparator(s[0]) then StripSeparators(s[1..])
    else [s[0]] + StripSeparators(s[1..])
  }

  /** Stripping works piece by piece, so separators can be removed from a
      phone number in any grouping. */
  lemma {:induction false} StripSeparatorsAppend(a: string, b: string)
    ensures StripSeparators(a + b) == StripSeparators(a) + StripSeparators(b)
  {
    if a != [] {
      assert (a + b)[0] == a[0];
      assert (a + b)[1..] == a[1..] + b;
      StripSeparatorsAppend(a[1..], b);
    } else {
      assert a + b == b;
    }
  }

  /** Number of whitespace characters at the start of `s`. */
  function LeadingSpaces(s: string): (k: nat)
    ensures k <= |s|
    ensures AllSpace(s[..k])
    ensures k == |s| || !IsSpace(s[k])
  {
    if s == [] || !IsSpace(s[0]) then 0 else 1 + LeadingSpaces(s[1..])
  }

  /** Number of whitespace characters at the end of `s`. */
  function TrailingSpaces(s: string): (k: nat)
    ensures k <= |s|
    ensures AllSpace(s[|s| - k..])
    ensures k == |s| || !IsSpace(s[|s| - 1 - k])
  {
    if s == [] || !IsSpace(s[|s| - 1]) then 0
    else
      var k := TrailingSpaces(s[..|s| - 1]);
      assert s[|s| - 1 - k..] == s[..|s| - 1][|s| - 1 - k..] + [s[|s| - 1]];
      1 + k
  }

  /** `String.prototype.trim`: the middle part of `s` left once the
      whitespace at both ends is cut off. */
  function Trim(s: string): (r: string)
    ensures |r| <= |s|
    ensures r == [] || (!IsSpace(r[0]) && !IsSpace(r[|r| - 1]))
  {
    var a := LeadingSpaces(s);
    if a == |s| then
      []
    else
      var b := |s| - TrailingSpaces(s);
      assert !IsSpace(s[a]);
      s[a..b]
  }

  /** `trim` cuts off whitespace and nothing else: the result is a slice of
      `s` with only whitespace on either side, and it is empty exactly when
      `s` is blank. */
  lemma TrimCutsOnlySpace(s: string)
    ensures Trim(s) == [] <==> AllSpace(s)
    ensures exists i :: 0 <= i <= |s| - |Trim(s)| && Trim(s) == s[i..i + |Trim(s)|]
                        && AllSpace(s[..i]) && AllSpace(s[i + |Trim(s)|..])
  {
    var a := LeadingSpaces(s);
    if a == |s| {
      assert s[..a] == s && s[a..] == [];
    } else {
      assert !IsSpace(s[a]);
    }
  }

  /** Trimming a string that is already trimmed changes nothing; in
      particular trimming twice is trimming once. */
  lemma TrimIdempotent(s: string)
    ensures Trim(Trim(s)) == Trim(s)
  {
    var t := Trim(s);
    if t != [] {
      assert LeadingSpaces(t) == 0;
      assert TrailingSpaces(t) == 0;
    }
  }

  /** The position of the first `c` in `s`, or `|s|` when there is none;
      used to locate the one `@` of an e-mail address. */
  function IndexOf(s: string, c: char): (k: nat)
    ensures k <= |s|
    ensures k < |s| ==> s[k] == c
    ensures forall i :: 0 <= i < k ==> s[i] != c
  {
    if s == [] || s[0] == c then 0 else 1 + IndexOf(s[1..], c)
  }

  /** Strict lexicographic order by code point. On ASCII strings, such as
      `YYYY-MM-DD` dates, it agrees with JavaScript's `<` (which compares
      UTF-16 units) and orders dates chronologically. */
  predicate LexLess(a: string, b: string) {
    if a == [] then b != []
    else if b == [] then false
    else if a[0] != b[0] then a[0] < b[0]
    else LexLess(a[1..], b[1..])
  }

  /** `LexLess` is irreflexive and trichotomous: of two different strings
      exactly one is smaller. */
  lemma {:induction false} LexLessTrichotomy(a: string, b: string)
    ensures a == b ==> !LexLess(a, b) && !LexLess(b, a)
    ensures a != b ==> LexLess(a, b) != LexLess(b, a)
  {
    if a != [] && b != [] && a[0] == b[0] {
      LexLessTrichotomy(a[1..], b[1..]);
      if a[1..] == b[1..] {
        assert a == [a[0]] + a[1..] && b == [b[0]] + b[1..];
      }
    }
  }

  /** Decimal digits of `n`, as a template literal prints a number. */
  function DecimalText(n: nat): (r: string)
    ensures r != []
    ensures forall i :: 0 <= i < |r| ==> '0' <= r[i] <= '9'
  {
    if n < 10 then ["0123456789"[n]]
    else DecimalText(n / 10) + ["0123456789"[n % 10]]
  }
}
