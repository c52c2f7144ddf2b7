/**
 * The client-side form checks: the email pattern, the password, name and
 * required-field tests, and the rule objects the forms register, read the
 * way the form library applies them.
 */
module Validators {
  import opened Text
  import opened Wrappers

  /** One `[^\s@]+` run of the email pattern. */
  predicate EmailPart(s: string) {
    s != [] && NoSpace(s) && '@' !in s
  }

  /**
   * `/^[^\s@]+@[^\s@]+\.[^\s@]+$/` as the pattern reads: a part, an '@', a
   * part, a '.', a part. The middle part may itself hold dots; the pattern
   * may match any of them.
   */
  predicate MatchesEmailPattern(s: string) {
    exists i, j :: 0 < i < j < |s| && s[i] == '@' && s[j] == '.'
      && EmailPart(s[..i]) && EmailPart(s[i + 1..j]) && EmailPart(s[j + 1..])
  }

  /**
   * `validateEmail`, decided in one pass: no white space anywhere, a
   * non-empty part before the first '@', no other '@', and a '.' after it
   * that is neither the first nor the last character of the rest.
   */
  function ValidateEmail(email: string): (ok: bool) {
    var at := IndexOf(email, '@');
    && at > 0 && NoSpace(email)
    && var domain := email[at + 1..];
       '@' !in domain && |domain| >= 3 && '.' in domain[1..|domain| - 1]
  }

  lemma NoSpaceSlice(s: string, i: nat, j: nat)
    requires i <= j <= |s| && NoSpace(s)
    ensures NoSpace(s[i..j])
  {
    assert forall k :: 0 <= k < j - i ==> s[i..j][k] == s[i + k];
  }

  lemma EmailFromCheck(s: string)
    requires ValidateEmail(s)
    ensures MatchesEmailPattern(s)
  {
    var i := IndexOf(s, '@');
    var d := s[i + 1..];
    var m := d[1..|d| - 1];
    var k :| 0 <= k < |m| && m[k] == '.';
    var j := i + 2 + k;
    assert j < |s| - 1;
    assert s[j] == m[k];
    NoSpaceSlice(s, 0, i);
    NoSpaceSlice(s, i + 1, j);
    NoSpaceSlice(s, j + 1, |s|);
    assert EmailPart(s[..i]);
    assert EmailPart(s[i + 1..j]) by {
      assert s[i + 1..j] == d[..k + 1];
      assert forall c :: c in d[..k + 1] ==> c in d;
    }
    assert EmailPart(s[j + 1..]) by {
      assert s[j + 1..] == d[k + 2..];
      assert forall c :: c in d[k + 2..] ==> c in d;
    }
    assert 0 < i < j < |s| && s[i] == '@' && s[j] == '.';
  }

  lemma EmailToCheck(s: string, i: nat, j: nat)
    requires 0 < i < j < |s| && s[i] == '@' && s[j] == '.'
    requires EmailPart(s[..i]) && EmailPart(s[i + 1..j]) && EmailPart(s[j + 1..])
    ensures ValidateEmail(s)
  {
    var a, b, c := s[..i], s[i + 1..j], s[j + 1..];
    assert s == a + ['@'] + b + ['.'] + c;
    assert NoSpace(s) by {
      forall k | 0 <= k < |s| ensures !IsSpace(s[k]) {
        if k < i { assert s[k] == a[k]; }
        else if i < k < j { assert s[k] == b[k - i - 1]; }
        else if j < k { assert s[k] == c[k - j - 1]; }
      }
    }
    var d := s[i + 1..];
    assert d == b + ['.'] + c;
    assert '@' !in d;
    assert d[1..|d| - 1][j - i - 2] == '.';
  }

  /** The one-pass check accepts exactly the strings the pattern matches. */
  lemma ValidateEmailIsPattern(s: string)
    ensures ValidateEmail(s) <==> MatchesEmailPattern(s)
  {
    if ValidateEmail(s) {
      EmailFromCheck(s);
    }
    if MatchesEmailPattern(s) {
      var i, j :| 0 < i < j < |s| && s[i] == '@' && s[j] == '.'
        && EmailPart(s[..i]) && EmailPart(s[i + 1..j]) && EmailPart(s[j + 1..]);
      EmailToCheck(s, i, j);
    }
  }

  /** An accepted address holds exactly one '@'. */
  lemma EmailHasOneAt(s: string, k: nat)
    requires ValidateEmail(s) && k < |s| && s[k] == '@'
    ensures k == IndexOf(s, '@')
  {
  }

  /** `validatePassword`: present and 8 to 50 characters long. */
  predicate ValidatePassword(password: string) {
    password != [] && 8 <= |password| <= 50
  }

  /** `validateName`: present and 2 to 30 characters once trimmed. */
  predicate ValidateName(name: string) {
    name != [] && 2 <= |Trim(name)| <= 30
  }

  /** `validateRequired`: present and not empty once trimmed. */
  predicate ValidateRequired(value: string) {
    value != [] && |Trim(value)| > 0
  }

  /** A value is required-valid exactly when it holds a character that is not white space. */
  lemma ValidateRequiredIsVisible(value: string)
    ensures ValidateRequired(value) <==> exists k :: 0 <= k < |value| && !IsSpace(value[k])
  {
    var i, j := TrimBounds(value);
    if i < j {
      assert !IsSpace(value[i]) by {
        assert value[i..j][0] == value[i];
      }
    } else {
      assert value == value[..i] + value[j..];
      AllSpaceConcat(value[..i], value[j..]);
    }
  }

  /** White space around a name does not change whether it is accepted. */
  lemma ValidateNameIgnoresPadding(ws: string, name: string, ws': string)
    requires AllSpace(ws) && AllSpace(ws')
    ensures ValidateName(ws + name + ws') == ValidateName(name)
  {
    TrimOfPadded(ws, name, ws');
  }

  /** A length bound of a form rule: the limit and the message shown when it is broken. */
  datatype Length = Length(limit: nat, message: string)

  /**
   * A rule object as the forms register it: the `required` message, the
   * optional length bounds, the email pattern, and the value a `validate`
   * function compares with.
   */
  datatype Rule = Rule(
    required: string,
    minLength: Option<Length>,
    maxLength: Option<Length>,
    emailPattern: Option<string>,
    mustEqual: Option<string>)

  const MismatchMessage := "Passwords do not match"

  /**
   * The form library's order of checks: an empty value fails `required`;
   * a non-empty one is checked against the maximum, then the minimum
   * length, then the pattern, then `validate`. The first failure's message
   * is reported; `None` means the value is accepted, which happens exactly
   * when every check the rule names passes.
   */
  function CheckField(rule: Rule, value: string): (r: Option<string>)
    ensures r.None? <==> && value != []
                         && (rule.minLength.Some? ==> |value| >= rule.minLength.value.limit)
                         && (rule.maxLength.Some? ==> |value| <= rule.maxLength.value.limit)
                         && (rule.emailPattern.Some? ==> MatchesEmailPattern(value))
                         && (rule.mustEqual.Some? ==> value == rule.mustEqual.value)
    ensures value == [] ==> r == Some(rule.required)
  {
    ValidateEmailIsPattern(value);
    if value == [] then Some(rule.required)
    else if rule.maxLength.Some? && |value| > rule.maxLength.value.limit then Some(rule.maxLength.value.message)
    else if rule.minLength.Some? && |value| < rule.minLength.value.limit then Some(rule.minLength.value.message)
    else if rule.emailPattern.Some? && !ValidateEmail(value) then Some(rule.emailPattern.value)
    else if rule.mustEqual.Some? && value != rule.mustEqual.value then Some(MismatchMessage)
    else None
  }

  function Bounded(required: string, min: nat, minMessage: string, max: nat, maxMessage: string): Rule {
    Rule(required, Some(Length(min, minMessage)), Some(Length(max, maxMessage)), None, None)
  }

  const FirstnameRule := Bounded("First name is required", 2, "First name must be at least 2 characters",
                                 30, "First name must not exceed 30 characters")
  const LastnameRule := Bounded("Last name is required", 2, "Last name must be at least 2 characters",
                                30, "Last name must not exceed 30 characters")
  const EmailRule := Rule("Email is required", None, None, Some("Please enter a valid email address"), None)
  const PasswordRule := Bounded("Password is required", 8, "Password must be at least 8 characters",
                                50, "Password must not exceed 50 characters")

  /** `confirmPassword(password)`: required, and equal to the password. */
  function ConfirmPasswordRule(password: string): Rule {
    Rule("Please confirm your password", None, None, None, Some(password))
  }

  const JobTitleRule := Bounded("Job title is required", 2, "Title must be at least 2 characters",
                                100, "Title must not exceed 100 characters")
  const CompanyRule := Bounded("Company name is required", 2, "Company must be at least 2 characters",
                               100, "Company must not exceed 100 characters")
  const ResumeTitleRule := Bounded("Resume title is required", 2, "Title must be at least 2 characters",
                                   100, "Title must not exceed 100 characters")
  const ResumeContentRule := Bounded("Resume content is required", 10, "Content must be at least 10 characters",
                                     10000, "Content must not exceed 10,000 characters")
  const NoteTitleRule := Bounded("Note title is required", 2, "Title must be at least 2 characters",
                                 100, "Title must not exceed 100 characters")
  const NoteContentRule := Bounded("Note content is required", 1, "Content is required",
                                   5000, "Content must not exceed 5,000 characters")
  const JobDescriptionRule := Bounded("Job description is required", 10, "Description must be at least 10 characters",
                                      5000, "Description must not exceed 5,000 characters")

  /** The password rule and `validatePassword` accept the same values. */
  lemma PasswordRuleIsValidatePassword(value: string)
    ensures CheckField(PasswordRule, value).None? <==> ValidatePassword(value)
  {
  }

  /** The form's email rule and `validateEmail` accept the same values. */
  lemma EmailRuleIsValidateEmail(value: string)
    ensures CheckField(EmailRule, value).None? <==> ValidateEmail(value)
  {
    ValidateEmailIsPattern(value);
  }

  /** The confirmation passes exactly when it is given and equals the password. */
  lemma ConfirmPasswordPasses(password: string, value: string)
    ensures CheckField(ConfirmPasswordRule(password), value).None? <==> value != [] && value == password
    ensures value != [] && value != password ==> CheckField(ConfirmPasswordRule(password), value) == Some(MismatchMessage)
  {
  }

  /**
   * The name rule counts the characters as typed, `validateName` after
   * trimming: a single letter after a space satisfies the rule but not the
   * function.
   */
  lemma NameRuleCountsPadding()
    ensures CheckField(FirstnameRule, " a").None? && !ValidateName(" a")
  {
    var s := " a";
    assert IsSpace(s[0]) && !IsSpace(s[1]);
    assert s[1..] == "a";
    assert TrimStart(s) == "a";
    TrimOfTrimmed("a");
  }

  /** A value too long is reported with the maximum's message even when it is also malformed. */
  lemma LongValueReportsMaximum(value: string)
    requires |value| > 50
    ensures CheckField(PasswordRule, value) == Some("Password must not exceed 50 characters")
  {
  }
}
