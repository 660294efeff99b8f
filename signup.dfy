/** The sign-up form's client-side check: the first failing rule, in a fixed
    order, gives the message shown; a form that passes every rule gives no
    message. */
module Signup {
  import opened Wrappers
  import opened JsStrings

  datatype SignupForm = SignupForm(name: string, email: string, password: string, confirmPassword: string)

  /** What `/^[^\s@]+@[^\s@]+\.[^\s@]+$/` accepts: no whitespace, exactly one
      `@` with something before it, and after it a `.` that is neither the
      first nor the last character of the domain. */
  ghost predicate EmailPattern(s: string) {
    && NoWhitespace(s)
    && exists at, dot ::
      && 0 < at && at + 1 < dot < |s| - 1
      && s[at] == '@' && s[dot] == '.'
      && forall j :: 0 <= j < |s| && j != at ==> s[j] != '@'
  }

  /** The same test read left to right: find the `@`, make sure it is the
      only one, then look for an inner `.` in what follows it. */
  function IsEmailLike(s: string): (r: bool)
    ensures r <==> EmailPattern(s)
  {
    if !NoWhitespace(s) || '@' !in s then
      false
    else
      var at := IndexOf(s, '@');
      var domain := s[at + 1..];
      var r := 0 < at && '@' !in domain && |domain| >= 3 && '.' in domain[1..|domain| - 1];
      EmailLikeSound(s, at, r);
      r
  }

  lemma EmailLikeSound(s: string, at: nat, r: bool)
    requires NoWhitespace(s) && at < |s| && s[at] == '@' && '@' !in s[..at]
    requires var domain := s[at + 1..];
      r == (0 < at && '@' !in domain && |domain| >= 3 && '.' in domain[1..|domain| - 1])
    ensures r <==> EmailPattern(s)
  {
    var domain := s[at + 1..];
    if r {
      var k :| 0 <= k < |domain[1..|domain| - 1]| && domain[1..|domain| - 1][k] == '.';
      var dot := at + 2 + k;
      assert s[dot] == '.';
      forall j | 0 <= j < |s| && j != at ensures s[j] != '@' {
        if j < at {
          assert s[j] == s[..at][j];
        } else {
          assert s[j] == domain[j - at - 1];
        }
      }
    }
  }

  /** The message for the first rule the form breaks, or `null`. */
  function ValidateForm(f: SignupForm): (r: Option<string>)
    ensures r == None <==>
      && Trim(f.name) != "" && Trim(f.email) != "" && EmailPattern(f.email)
      && Utf16Length(f.password) >= 6 && f.password == f.confirmPassword
    ensures r == Some("Name is required") <==> Trim(f.name) == ""
    ensures r == Some("Email is required") <==> Trim(f.name) != "" && Trim(f.email) == ""
    ensures r == Some("Please enter a valid email") <==>
      Trim(f.name) != "" && Trim(f.email) != "" && !EmailPattern(f.email)
    ensures r == Some("Password must be at least 6 characters") <==>
      Trim(f.name) != "" && EmailPattern(f.email) && Utf16Length(f.password) < 6
    ensures r == Some("Passwords do not match") <==>
      Trim(f.name) != "" && EmailPattern(f.email) && Utf16Length(f.password) >= 6 && f.password != f.confirmPassword
  {
    EmailPatternNotBlank(f.email);
    if Trim(f.name) == "" then Some("Name is required")
    else if Trim(f.email) == "" then Some("Email is required")
    else if !IsEmailLike(f.email) then Some("Please enter a valid email")
    else if Utf16Length(f.password) < 6 then Some("Password must be at least 6 characters")
    else if f.password != f.confirmPassword then Some("Passwords do not match")
    else None
  }

  /** An address the pattern accepts has no padding to trim away and is not
      blank, so the blank-email rule never hides a pattern failure. */
  lemma EmailPatternNotBlank(s: string)
    ensures EmailPattern(s) ==> Trim(s) == s && s != ""
  {
    if EmailPattern(s) {
      TrimOfTrimmed(s);
    }
  }

  /** The blank check trims the address but the pattern does not: an address
      typed with a leading or trailing space gets the invalid-email message. */
  lemma PaddedEmailRejected(f: SignupForm)
    requires Trim(f.name) != "" && Trim(f.email) != ""
    requires |f.email| > 0 && (IsWhitespace(f.email[0]) || IsWhitespace(f.email[|f.email| - 1]))
    ensures ValidateForm(f) == Some("Please enter a valid email")
  {
  }

  /** The length rule counts UTF-16 code units: six characters always pass,
      and three characters outside the Basic Multilingual Plane already do. */
  lemma {:induction false} PasswordLengthUnits(p: string)
    ensures |p| >= 6 ==> Utf16Length(p) >= 6
    ensures Utf16Length(p) >= 6 ==> |p| >= 3
    ensures (forall i :: 0 <= i < |p| ==> p[i] as int >= 0x1_0000) ==> Utf16Length(p) == 2 * |p|
  {
    if p != [] {
      PasswordLengthUnits(p[1..]);
    }
  }
}
