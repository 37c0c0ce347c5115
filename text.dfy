/** The character classes that the Java library and the bean-validation annotations use on strings. */
module Text {

  /** `Character.isWhitespace`: the space, line and paragraph separators except the three
      non-breaking spaces, plus tab, line feed, vertical tab, form feed, carriage return
      and the four information separators U+001C..U+001F. */
  predicate IsJavaWhitespace(c: char) {
    || ('\U{0009}' <= c <= '\U{000D}')
    || ('\U{001C}' <= c <= '\U{0020}')
    || c == '\U{1680}'
    || ('\U{2000}' <= c <= '\U{2006}')
    || ('\U{2008}' <= c <= '\U{200A}')
    || c == '\U{2028}' || c == '\U{2029}' || c == '\U{205F}' || c == '\U{3000}'
  }

  /** `String.isBlank`: empty, or made only of Java whitespace. */
  predicate IsBlank(s: string) {
    forall i :: 0 <= i < |s| ==> IsJavaWhitespace(s[i])
  }

  /** `@NotBlank` of Hibernate Validator: `s.trim().length() > 0`, where `trim` strips
      every character up to U+0020. */
  predicate NotBlankTrimmed(s: string) {
    exists i :: 0 <= i < |s| && s[i] > ' '
  }

  /** The regular-expression class `\s`: space, tab, line feed, vertical tab, form feed, carriage return. */
  predicate IsRegexSpace(c: char) {
    c == ' ' || c == '\t' || c == '\n' || c == '\U{000B}' || c == '\U{000C}' || c == '\r'
  }

  /** The whole string matches `\A\S+\Z`: it is not empty and holds no character of
      `[ \t\n\x0B\f\r]`. */
  predicate MatchesNonSpaceRun(s: string) {
    |s| > 0 && forall i :: 0 <= i < |s| ==> !IsRegexSpace(s[i])
  }

  /** `String.length()`: the number of UTF-16 code units, so a character above U+FFFF (a
      surrogate pair) counts twice. */
  function Utf16Length(s: string): nat {
    if s == [] then 0
    else Utf16Length(s[..|s| - 1]) + (if s[|s| - 1] > '\U{FFFF}' then 2 else 1)
  }

  /** A string has at least as many UTF-16 units as characters and at most twice as many;
      exactly as many when every character lies in the Basic Multilingual Plane, and exactly
      twice as many when none does. */
  lemma {:induction false} Utf16LengthBounds(s: string)
    ensures |s| <= Utf16Length(s) <= 2 * |s|
    ensures (forall i :: 0 <= i < |s| ==> s[i] <= '\U{FFFF}') ==> Utf16Length(s) == |s|
    ensures (forall i :: 0 <= i < |s| ==> s[i] > '\U{FFFF}') ==> Utf16Length(s) == 2 * |s|
  {
    if s != [] {
      var init := s[..|s| - 1];
      assert forall i :: 0 <= i < |init| ==> init[i] == s[i];
      Utf16LengthBounds(init);
    }
  }

  /** Every regex space is a Java whitespace character. */
  lemma RegexSpaceIsJavaWhitespace(c: char)
    requires IsRegexSpace(c)
    ensures IsJavaWhitespace(c)
  {
  }

  /** A string that `\A\S+\Z` accepts can still be blank in `String.isBlank`'s sense:
      a single U+2000 (EN QUAD) is a Java whitespace character but not a regex space. */
  lemma NonSpaceRunMayBeBlank()
    ensures MatchesNonSpaceRun("\U{2000}") && IsBlank("\U{2000}")
  {
  }

  /** A string with a character outside `\s` and outside Java whitespace above U+0020 is
      neither blank nor rejected by `@NotBlank`. */
  lemma VisibleCharIsNotBlank(s: string, i: int)
    requires 0 <= i < |s| && s[i] > ' ' && !IsJavaWhitespace(s[i])
    ensures !IsBlank(s) && NotBlankTrimmed(s)
  {
  }
}
