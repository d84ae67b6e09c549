/**
 * `validateEmail` and `validatePassword`, the two private helpers both
 * copies of `UserService` share word for word. Each returns the error
 * message, or `None` (Java's `null`) when the value is acceptable. The
 * regular expressions are written out as character predicates.
 */
module Validators {
  import opened Outcomes
  import opened JavaText

  const EMAIL_REQUIRED := "User email must be informed."
  const EMAIL_INVALID := "Invalid email format."
  const PASSWORD_REQUIRED := "User password must be informed."
  const PASSWORD_WEAK := "Password must contain at least 8 characters, one uppercase letter, one number and one special character."

  // ------------------------------------------------------------ characters

  /** The class `[A-Za-z0-9+_.-]`. */
  predicate IsLocalChar(c: char)
  {
    ('A' <= c <= 'Z') || ('a' <= c <= 'z') || ('0' <= c <= '9') || c == '+' || c == '_' || c == '.' || c == '-'
  }

  /** The characters Java's `.` does not match. */
  predicate IsLineTerminator(c: char)
  {
    c == '\n' || c == '\r' || c == '\U{85}' || c == '\U{2028}' || c == '\U{2029}'
  }

  /** Java's `\s`: `[ \t\n\x0B\f\r]`. */
  predicate IsRegexSpace(c: char)
  {
    c == ' ' || ('\t' <= c <= '\r')
  }

  predicate IsUpper(c: char) { 'A' <= c <= 'Z' }

  predicate IsSpecial(c: char)
  {
    c == '@' || c == '#' || c == '$' || c == '%' || c == '^' || c == '&' || c == '+' || c == '=' || c == '!'
  }

  // ------------------------------------------------------------------ email

  /** `.+`: at least one character, none of them a line terminator. */
  predicate MatchesAnyPlus(s: string)
  {
    |s| > 0 && forall i :: 0 <= i < |s| ==> !IsLineTerminator(s[i])
  }

  /** The rest of `[A-Za-z0-9+_.-]+@(.+)` once one local character is consumed. */
  predicate MatchesLocalTail(s: string)
    decreases |s|
  {
    if |s| == 0 then false
    else if s[0] == '@' then MatchesAnyPlus(s[1..])
    else IsLocalChar(s[0]) && MatchesLocalTail(s[1..])
  }

  /** `Email.matches("^[A-Za-z0-9+_.-]+@(.+)$")`, scanned left to right as the regex engine does. */
  predicate MatchesEmail(s: string)
  {
    |s| > 0 && IsLocalChar(s[0]) && MatchesLocalTail(s[1..])
  }

  /** The address splits at `at` into a non-empty local part of allowed characters, '@', and a non-empty one-line domain. */
  ghost predicate SplitsAt(s: string, at: int)
  {
    && 0 < at < |s| - 1
    && s[at] == '@'
    && (forall j :: 0 <= j < at ==> IsLocalChar(s[j]))
    && (forall j :: at < j < |s| ==> !IsLineTerminator(s[j]))
  }

  /** The shape the regex describes, stated declaratively. */
  ghost predicate EmailShape(s: string)
  {
    exists at :: SplitsAt(s, at)
  }

  /** Once the first `k` characters are local ones, the scan of the rest finds exactly the splits at or after `k`. */
  lemma {:induction false} LocalTailSplits(s: string, k: int)
    requires 0 < k <= |s|
    requires forall j :: 0 <= j < k ==> IsLocalChar(s[j])
    ensures MatchesLocalTail(s[k..]) <==> exists at :: k <= at && SplitsAt(s, at)
    decreases |s| - k
  {
    if k == |s| {
      assert s[k..] == [];
    } else if s[k] == '@' {
      assert s[k..][1..] == s[k + 1..];
      if MatchesLocalTail(s[k..]) {
        assert SplitsAt(s, k);
      } else {
        forall at | k <= at ensures !SplitsAt(s, at) {
          if at == k && k + 1 < |s| {
            var j :| 0 <= j < |s[k + 1..]| && IsLineTerminator(s[k + 1..][j]);
            assert IsLineTerminator(s[k + 1 + j]);
          }
        }
      }
    } else {
      assert s[k..][1..] == s[k + 1..];
      if IsLocalChar(s[k]) {
        LocalTailSplits(s, k + 1);
        assert !SplitsAt(s, k);
      } else {
        forall at | k <= at ensures !SplitsAt(s, at) {
          if at > k {
            assert !IsLocalChar(s[k]);
          }
        }
      }
    }
  }

  /** The left-to-right scan accepts exactly the addresses of the declared shape. */
  lemma MatchesEmailIsShape(s: string)
    ensures MatchesEmail(s) <==> EmailShape(s)
  {
    if |s| > 0 && IsLocalChar(s[0]) {
      LocalTailSplits(s, 1);
    } else {
      forall at ensures !SplitsAt(s, at) {
        if 0 < at < |s| {
          assert !IsLocalChar(s[0]);
        }
      }
    }
  }

  /** `validateEmail`. */
  function ValidateEmail(email: Option<string>): (r: Option<string>)
    ensures r.None? <==> email.Some? && EmailShape(email.value)
    ensures r == Some(EMAIL_REQUIRED) <==> email.None? || TrimEmpty(email.value)
    ensures r.Some? ==> r.value == EMAIL_REQUIRED || r.value == EMAIL_INVALID
  {
    if email.None? || TrimEmpty(email.value) then Some(EMAIL_REQUIRED)
    else (
      MatchesEmailIsShape(email.value);
      if !MatchesEmail(email.value) then Some(EMAIL_INVALID)
      else None)
  }

  // --------------------------------------------------------------- password

  /**
   * `passWord.matches("^(?=.*[A-Z])(?=.*[0-9])(?=.*[@#$%^&+=!])(?=\\S+$).{8,}$")`:
   * the lookaheads ask for an upper-case letter, a digit and a special
   * character; `\S+$` forbids `\s`; `.{8,}` asks for eight characters and,
   * since the whole input must match, forbids line terminators.
   */
  predicate StrongPassword(s: string)
  {
    && |s| >= 8
    && (forall i :: 0 <= i < |s| ==> !IsRegexSpace(s[i]) && !IsLineTerminator(s[i]))
    && (exists i :: 0 <= i < |s| && IsUpper(s[i]))
    && (exists i :: 0 <= i < |s| && IsDigit(s[i]))
    && (exists i :: 0 <= i < |s| && IsSpecial(s[i]))
  }

  /** `validatePassword`. */
  function ValidatePassword(password: Option<string>): (r: Option<string>)
    ensures r.None? <==> password.Some? && StrongPassword(password.value)
    ensures r == Some(PASSWORD_REQUIRED) <==> password.None? || TrimEmpty(password.value)
    ensures r.Some? ==> r.value == PASSWORD_REQUIRED || r.value == PASSWORD_WEAK
  {
    if password.None? || TrimEmpty(password.value) then Some(PASSWORD_REQUIRED)
    else if !StrongPassword(password.value) then Some(PASSWORD_WEAK)
    else None
  }
}
