/** The stock-keeping-unit format `^[A-Z]{2,3}-[0-9]{3,4}$` that the
    product schema imposes on `sku`: two or three capital ASCII letters, a
    hyphen, then three or four ASCII digits, and nothing before or after.

    pydantic matches field patterns with the Rust `regex` engine by default,
    where `$` matches only at the very end of the text (a trailing newline is
    not allowed before it), so the whole string must have this shape. */
module Sku {

  predicate IsUpper(c: char) {
    'A' <= c <= 'Z'
  }

  predicate IsDigit(c: char) {
    '0' <= c <= '9'
  }

  /** The language of the pattern: `s` splits into k capitals, a hyphen at
      index k, and digits to the end. */
  ghost predicate InLanguage(s: string) {
    exists k :: 2 <= k <= 3 && k < |s| && s[k] == '-'
      && (forall i :: 0 <= i < k ==> IsUpper(s[i]))
      && 3 <= |s| - (k + 1) <= 4
      && (forall i :: k < i < |s| ==> IsDigit(s[i]))
  }

  /** The number of capital letters `s` starts with. */
  function LeadingUpper(s: string): (n: nat)
    ensures n <= |s|
    ensures forall i :: 0 <= i < n ==> IsUpper(s[i])
    ensures n < |s| ==> !IsUpper(s[n])
  {
    if |s| == 0 || !IsUpper(s[0]) then 0 else 1 + LeadingUpper(s[1..])
  }

  /** Whether every character of `s` is a digit. */
  function AllDigits(s: string): (b: bool)
    ensures b <==> forall i :: 0 <= i < |s| ==> IsDigit(s[i])
  {
    if |s| == 0 then true else IsDigit(s[0]) && AllDigits(s[1..])
  }

  /** The matcher: count the leading capitals, then expect the hyphen right
      after them and three or four digits to the end. Because the hyphen is
      not a capital, the only split the pattern can use is the one after the
      leading capitals. */
  function Match(s: string): (b: bool)
    ensures b <==> InLanguage(s)
  {
    var k := LeadingUpper(s);
    var b := 2 <= k <= 3 && k < |s| && s[k] == '-' && 3 <= |s| - (k + 1) <= 4 && AllDigits(s[k + 1..]);
    assert b ==> InLanguage(s) by {
      if b {
        forall i | k < i < |s|
          ensures IsDigit(s[i])
        {
          assert s[i] == s[k + 1..][i - (k + 1)];
        }
      }
    }
    assert InLanguage(s) ==> b by {
      if InLanguage(s) {
        var j :| 2 <= j <= 3 && j < |s| && s[j] == '-'
          && (forall i :: 0 <= i < j ==> IsUpper(s[i]))
          && 3 <= |s| - (j + 1) <= 4
          && (forall i :: j < i < |s| ==> IsDigit(s[i]));
        assert j == k;
      }
    }
    b
  }

  /** A string in the language is six to eight characters long, so a
      maximum length of 20 beside the pattern never rejects anything. */
  lemma InLanguageLength(s: string)
    requires InLanguage(s)
    ensures 6 <= |s| <= 8
  {
  }

  lemma MatchAccepts()
    ensures Match("AB-123")
  {
  }

  lemma MatchRejectsShort()
    ensures !Match("AB-12")
  {
  }
}
