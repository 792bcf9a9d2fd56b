/**
 * The three input patterns of util/regex.js as string predicates.
 * `\s` is JavaScript's whitespace class (a fixed, finite set of code
 * points); `.` does not match a line terminator; `^` and `$` anchor at the
 * ends of the whole string.
 */
module Validators {

  predicate IsAsciiUpper(c: char) { 'A' <= c <= 'Z' }

  predicate IsAsciiLower(c: char) { 'a' <= c <= 'z' }

  predicate IsAsciiDigit(c: char) { '0' <= c <= '9' }

  predicate IsAsciiAlnum(c: char) { IsAsciiUpper(c) || IsAsciiLower(c) || IsAsciiDigit(c) }

  /** `\w` */
  predicate IsWordChar(c: char) { IsAsciiAlnum(c) || c == '_' }

  /** `\s`: the white-space and line-terminator code points of ECMAScript. */
  predicate IsWhitespace(c: char) {
    c == '\t' || c == '\n' || c == '\U{000B}' || c == '\U{000C}' || c == '\r' || c == ' ' ||
    c == '\U{00A0}' || c == '\U{1680}' || ('\U{2000}' <= c <= '\U{200A}') ||
    c == '\U{2028}' || c == '\U{2029}' || c == '\U{202F}' || c == '\U{205F}' ||
    c == '\U{3000}' || c == '\U{FEFF}'
  }

  /** The characters `.` does not match. */
  predicate IsLineTerminator(c: char) {
    c == '\n' || c == '\r' || c == '\U{2028}' || c == '\U{2029}'
  }

  /** onlyAlphaNumericsAndUnderscores, `^[a-zA-Z0-9_]*$`, scanned left to right. */
  function MatchesIdentifier(s: string): (b: bool)
    ensures b <==> forall i :: 0 <= i < |s| ==> IsWordChar(s[i])
  {
    if |s| == 0 then true
    else
      assert forall i :: 1 <= i < |s| ==> s[i] == s[1..][i - 1];
      IsWordChar(s[0]) && MatchesIdentifier(s[1..])
  }

  /** The special characters listed in passwordRegex's character classes. */
  predicate IsPasswordSpecial(c: char) {
    c == '!' || c == '@' || c == '#' || c == '$' || c == '%' || c == '^' || c == '&' || c == '*' ||
    c == '(' || c == ')' || c == '_' || c == '+' || c == '~' || c == '`' || c == '-' || c == '=' ||
    c == '{' || c == '}' || c == '[' || c == ']' || c == '\\' || c == '|' || c == ':' || c == ';' ||
    c == '"' || c == '\'' || c == '<' || c == '>' || c == ',' || c == '.' || c == '?' || c == '/'
  }

  predicate IsPasswordChar(c: char) {
    IsAsciiUpper(c) || IsAsciiLower(c) || IsAsciiDigit(c) || IsPasswordSpecial(c)
  }

  /**
   * passwordRegex: at least six allowed characters, with an upper-case
   * letter, a lower-case letter, a digit and a listed special among them.
   */
  function MatchesPassword(s: string): (b: bool)
    ensures b ==> |s| >= 6 && forall i :: 0 <= i < |s| ==> '!' <= s[i] <= '~' && !IsWhitespace(s[i])
  {
    && |s| >= 6
    && (forall i :: 0 <= i < |s| ==> IsPasswordChar(s[i]))
    && (exists i :: 0 <= i < |s| && IsAsciiUpper(s[i]))
    && (exists i :: 0 <= i < |s| && IsAsciiLower(s[i]))
    && (exists i :: 0 <= i < |s| && IsAsciiDigit(s[i]))
    && (exists i :: 0 <= i < |s| && IsPasswordSpecial(s[i]))
  }

  /** The listed specials are exactly the ASCII punctuation, so the allowed set is '!'..'~'. */
  lemma PasswordAlphabet(c: char)
    ensures IsPasswordSpecial(c) <==> '!' <= c <= '~' && !IsAsciiAlnum(c)
    ensures IsPasswordChar(c) <==> '!' <= c <= '~'
  {
  }

  /** A password containing any white space is rejected. */
  lemma PasswordRejectsWhitespace(s: string, i: int)
    requires 0 <= i < |s| && IsWhitespace(s[i])
    ensures !MatchesPassword(s)
  {
    assert !IsPasswordChar(s[i]);
  }

  lemma PasswordExamples()
    ensures MatchesPassword("Abcde1!")
    ensures MatchesPassword("aB3_xy")
    ensures !MatchesPassword("Ab1!x")
  {
    var p := "Abcde1!";
    assert IsAsciiUpper(p[0]) && IsAsciiLower(p[1]) && IsAsciiDigit(p[5]) && IsPasswordSpecial(p[6]);
    var q := "aB3_xy";
    assert IsAsciiUpper(q[1]) && IsAsciiLower(q[0]) && IsAsciiDigit(q[2]) && IsPasswordSpecial(q[3]);
  }

  /**
   * The lookahead `(?!.*\s{2})` at the start, tried the way a backtracking
   * matcher tries it: `.*` stops at the first line terminator.
   */
  function DoubleWhitespaceAhead(s: string): bool
  {
    if |s| < 2 then false
    else if IsWhitespace(s[0]) && IsWhitespace(s[1]) then true
    else if IsLineTerminator(s[0]) then false
    else DoubleWhitespaceAhead(s[1..])
  }

  /** No line terminator occurs before position i. */
  predicate OnFirstLine(s: string, i: int) {
    forall k :: 0 <= k < i && k < |s| ==> !IsLineTerminator(s[k])
  }

  /** The lookahead finds exactly the white-space pairs with no line terminator before them. */
  lemma {:induction false} DoubleWhitespaceAheadMeans(s: string)
    ensures DoubleWhitespaceAhead(s) <==>
            exists i :: 0 <= i && i + 1 < |s| && IsWhitespace(s[i]) && IsWhitespace(s[i + 1]) && OnFirstLine(s, i)
  {
    if |s| < 2 {
    } else if IsWhitespace(s[0]) && IsWhitespace(s[1]) {
      assert OnFirstLine(s, 0);
    } else if IsLineTerminator(s[0]) {
    } else {
      var t := s[1..];
      DoubleWhitespaceAheadMeans(t);
      assert forall i :: 1 <= i < |s| ==> s[i] == t[i - 1];
      if DoubleWhitespaceAhead(t) {
        var j :| 0 <= j && j + 1 < |t| && IsWhitespace(t[j]) && IsWhitespace(t[j + 1]) && OnFirstLine(t, j);
        assert OnFirstLine(s, j + 1);
      } else {
        forall i | 1 <= i && i + 1 < |s| && IsWhitespace(s[i]) && IsWhitespace(s[i + 1])
          ensures !OnFirstLine(s, i)
        {
          assert !OnFirstLine(t, i - 1);
          var k :| 0 <= k < i - 1 && IsLineTerminator(t[k]);
          assert IsLineTerminator(s[k + 1]);
        }
      }
    }
  }

  /**
   * noSpecialCharsNoWhiteSpacesAtTheStartAndAtTheEndRegex,
   * `^(?!\s)(?!.*\s{2})[a-zA-Z0-9\s]*\w$`.
   */
  function MatchesNoSpecialChars(s: string): (b: bool)
    ensures b <==> (
              && |s| >= 1
              && !IsWhitespace(s[0])
              && IsWordChar(s[|s| - 1])
              && (forall i :: 0 <= i < |s| - 1 ==> IsAsciiAlnum(s[i]) || IsWhitespace(s[i]))
              && !(exists i :: 0 <= i && i + 1 < |s| && IsWhitespace(s[i]) && IsWhitespace(s[i + 1]) && OnFirstLine(s, i)))
    ensures b ==> forall i :: 0 <= i < |s| - 1 ==> s[i] != '_'
  {
    DoubleWhitespaceAheadMeans(s);
    && |s| >= 1
    && !IsWhitespace(s[0])
    && !DoubleWhitespaceAhead(s)
    && (forall i :: 0 <= i < |s| - 1 ==> IsAsciiAlnum(s[i]) || IsWhitespace(s[i]))
    && IsWordChar(s[|s| - 1])
  }

  /** `_` is accepted only as the last character, and the empty string is rejected. */
  lemma NoSpecialCharsUnderscore(s: string, i: int)
    requires 0 <= i < |s| - 1 && s[i] == '_'
    ensures !MatchesNoSpecialChars(s)
    ensures !MatchesNoSpecialChars("")
    ensures MatchesNoSpecialChars("ab_")
  {
    var t := "ab_";
    assert !DoubleWhitespaceAhead(t) by {
      assert forall j :: 0 <= j < |t| ==> !IsWhitespace(t[j]);
    }
  }

  /**
   * Two adjacent white-space characters are rejected when no line terminator
   * precedes them; after a line terminator they pass: "a\nb  c" is accepted.
   */
  lemma NoSpecialCharsDoubleWhitespace(s: string, i: int)
    requires 0 <= i && i + 1 < |s| && IsWhitespace(s[i]) && IsWhitespace(s[i + 1])
    requires forall k :: 0 <= k < i ==> !IsLineTerminator(s[k])
    ensures !MatchesNoSpecialChars(s)
    ensures MatchesNoSpecialChars("a\nb  c")
  {
    DoubleWhitespaceAheadMeans(s);
    var t := "a\nb  c";
    assert !DoubleWhitespaceAhead(t) by {
      assert t[1..] == "\nb  c";
      assert !DoubleWhitespaceAhead(t[1..]);
    }
  }
}
