/** The sign-up form (src/pages/Signup.tsx): the password strength meter
    and the checks made before the account is requested. */
module Signup {
  import opened IssueTypes
  import opened Text

  /** The characters a regular-expression `.` does not match. */
  predicate IsLineTerminator(c: char)
  {
    c == '\n' || c == '\r' || c == '\U{2028}' || c == '\U{2029}'
  }

  /** `.*` can run from position `p` up to position `q` of `s`. */
  predicate OnOneLine(s: string, p: int, q: int)
    requires 0 <= p <= q <= |s|
  {
    forall k | p <= k < q :: !IsLineTerminator(s[k])
  }

  /** The lookahead `(?=.*[A-Z])` succeeds at position `p`. */
  predicate UpperAhead(s: string, p: int)
    requires 0 <= p <= |s|
  {
    exists i | p <= i < |s| :: IsUpper(s[i]) && OnOneLine(s, p, i)
  }

  /** The lookahead `(?=.*[0-9])` succeeds at position `p`. */
  predicate DigitAhead(s: string, p: int)
    requires 0 <= p <= |s|
  {
    exists i | p <= i < |s| :: IsDigit(s[i]) && OnOneLine(s, p, i)
  }

  /** `/(?=.*[A-Z])(?=.*[0-9])/.test(s)`: both lookaheads succeed at one
      position. */
  predicate StrongPattern(s: string)
  {
    exists p | 0 <= p <= |s| :: UpperAhead(s, p) && DigitAhead(s, p)
  }

  predicate HasUpper(s: string) { exists i | 0 <= i < |s| :: IsUpper(s[i]) }

  predicate HasDigit(s: string) { exists i | 0 <= i < |s| :: IsDigit(s[i]) }

  /** A match needs an upper-case letter and a digit somewhere. */
  lemma StrongPatternNeedsBoth(s: string)
    requires StrongPattern(s)
    ensures HasUpper(s) && HasDigit(s)
  {
    var p :| 0 <= p <= |s| && UpperAhead(s, p) && DigitAhead(s, p);
    var i :| p <= i < |s| && IsUpper(s[i]);
    var j :| p <= j < |s| && IsDigit(s[j]);
    assert IsUpper(s[i]) && IsDigit(s[j]);
  }

  /** On a single line, the pattern is exactly "has an upper-case letter and
      a digit". */
  lemma StrongPatternOnOneLine(s: string)
    requires forall k :: 0 <= k < |s| ==> !IsLineTerminator(s[k])
    ensures StrongPattern(s) <==> HasUpper(s) && HasDigit(s)
  {
    if HasUpper(s) && HasDigit(s) {
      var i :| 0 <= i < |s| && IsUpper(s[i]);
      var j :| 0 <= j < |s| && IsDigit(s[j]);
      assert OnOneLine(s, 0, i) && OnOneLine(s, 0, j);
      assert UpperAhead(s, 0) && DigitAhead(s, 0);
    } else if StrongPattern(s) {
      StrongPatternNeedsBoth(s);
    }
  }

  /** The letter and the digit must be on one line: `.` does not cross a
      line break. */
  lemma SplitAcrossLines()
    ensures !StrongPattern("A\n1")
  {
    var s := "A\n1";
    forall p | 0 <= p <= |s|
      ensures !(UpperAhead(s, p) && DigitAhead(s, p))
    {
      if p == 0 {
        assert forall j | 0 <= j < |s| && IsDigit(s[j]) :: j == 2 && IsLineTerminator(s[1]);
      } else {
        assert forall i | p <= i < |s| :: !IsUpper(s[i]);
      }
    }
  }

  /** Appending a character keeps every match. */
  lemma StrongPatternExtends(s: string, c: char)
    requires StrongPattern(s)
    ensures StrongPattern(s + [c])
  {
    var t := s + [c];
    var p :| 0 <= p <= |s| && UpperAhead(s, p) && DigitAhead(s, p);
    var i :| p <= i < |s| && IsUpper(s[i]) && OnOneLine(s, p, i);
    var j :| p <= j < |s| && IsDigit(s[j]) && OnOneLine(s, p, j);
    assert t[i] == s[i] && t[j] == s[j];
    assert OnOneLine(t, p, i) by {
      forall k | p <= k < i ensures !IsLineTerminator(t[k]) {
        assert t[k] == s[k];
      }
    }
    assert OnOneLine(t, p, j) by {
      forall k | p <= k < j ensures !IsLineTerminator(t[k]) {
        assert t[k] == s[k];
      }
    }
    assert UpperAhead(t, p) && DigitAhead(t, p);
  }

  /** The meter's reading: the empty password has no label and no colour. */
  datatype Strength = Strength(level: nat, caption: string, color: Option<string>)

  /** The label that goes with each level. */
  function LevelLabel(level: nat): string
  {
    if level == 0 then ""
    else if level == 1 then "Weak"
    else if level == 2 then "Fair"
    else if level == 3 then "Good"
    else "Strong"
  }

  /** `passwordStrength`. */
  function PasswordStrength(password: string): (r: Strength)
    ensures r.level <= 4
    ensures r.caption == LevelLabel(r.level)
    ensures r.color.None? <==> r.level == 0
    ensures r.level <= 2 <==> |password| < 8
    ensures r.level == 4 ==> HasUpper(password) && HasDigit(password)
  {
    if |password| == 0 then Strength(0, "", None)
    else if |password| < 6 then Strength(1, "Weak", Some("bg-destructive"))
    else if |password| < 8 then Strength(2, "Fair", Some("bg-warning"))
    else if StrongPattern(password) then
      StrongPatternNeedsBoth(password);
      Strength(4, "Strong", Some("bg-success"))
    else Strength(3, "Good", Some("bg-info"))
  }

  /** The meter by length: empty, short, six or seven characters whatever
      they are, and from eight on "Strong" exactly for a single-line
      password holding an upper-case letter and a digit. */
  lemma StrengthByLength(password: string)
    ensures |password| == 0 ==> PasswordStrength(password).level == 0
    ensures 0 < |password| < 6 ==> PasswordStrength(password).level == 1
    ensures 6 <= |password| < 8 ==> PasswordStrength(password).level == 2
    ensures |password| >= 8 && (forall k :: 0 <= k < |password| ==> !IsLineTerminator(password[k])) ==>
              (PasswordStrength(password).level == 4 <==> HasUpper(password) && HasDigit(password))
    ensures |password| >= 8 ==> PasswordStrength(password).level >= 3
  {
    if |password| >= 8 && forall k :: 0 <= k < |password| ==> !IsLineTerminator(password[k]) {
      StrongPatternOnOneLine(password);
    }
  }

  /** Typing another character never lowers the meter. */
  lemma TypingNeverWeakens(password: string, c: char)
    ensures PasswordStrength(password).level <= PasswordStrength(password + [c]).level
  {
    if |password| >= 8 && StrongPattern(password) {
      StrongPatternExtends(password, c);
    }
  }

  /** What submitting the form leads to before the account request: an
      error message, or the request itself. */
  datatype SubmitOutcome =
    | Rejected(message: string)
    | CallSignUp(name: string, email: string, password: string)

  const MismatchMessage := "Passwords do not match"
  const TooShortMessage := "Password must be at least 6 characters"

  /** `handleSubmit` up to the `signUp` call. */
  function HandleSubmit(name: string, email: string, password: string, confirm: string): (r: SubmitOutcome)
    ensures r.CallSignUp? <==> password == confirm && |password| >= 6
    ensures r.CallSignUp? ==> r == CallSignUp(name, email, password)
    ensures r.Rejected? ==> r.message in {MismatchMessage, TooShortMessage}
  {
    if password != confirm then Rejected(MismatchMessage)
    else if |password| < 6 then Rejected(TooShortMessage)
    else CallSignUp(name, email, password)
  }

  /** Submitting the page. The browser's constraint validation runs before
      `handleSubmit`: all four inputs are `required`, so none may be empty,
      and the e-mail input must hold an address the browser accepts. That
      judgement is the browser's own and is a parameter here. */
  function PageSubmit(name: string, email: string, password: string, confirm: string,
                      emailAccepted: bool): (r: Option<SubmitOutcome>)
    ensures r.None? <==> name == "" || email == "" || password == "" || confirm == "" || !emailAccepted
    ensures r.Some? ==> r.value == HandleSubmit(name, email, password, confirm)
  {
    if name == "" || email == "" || password == "" || confirm == "" || !emailAccepted then None
    else Some(HandleSubmit(name, email, password, confirm))
  }

  /** The page only ever requests an account with a name, an accepted
      e-mail address, and a confirmed password of at least six
      characters. */
  lemma PageSignUpIsComplete(name: string, email: string, password: string, confirm: string,
                             emailAccepted: bool)
    requires PageSubmit(name, email, password, confirm, emailAccepted).Some?
    requires PageSubmit(name, email, password, confirm, emailAccepted).value.CallSignUp?
    ensures name != "" && email != "" && emailAccepted
    ensures password == confirm && |password| >= 6
  {
  }

  /** When both checks fail only the mismatch is reported, and the length
      message only ever appears for a matching pair. */
  lemma MismatchReportedFirst(name: string, email: string, password: string, confirm: string)
    ensures password != confirm ==> HandleSubmit(name, email, password, confirm) == Rejected(MismatchMessage)
    ensures HandleSubmit(name, email, password, confirm) == Rejected(TooShortMessage) <==>
              password == confirm && |password| < 6
  {
  }

  /** Every password sent to `signUp` reads at least "Fair" on the meter. */
  lemma SignUpOnlyFairOrBetter(name: string, email: string, password: string, confirm: string)
    requires HandleSubmit(name, email, password, confirm).CallSignUp?
    ensures PasswordStrength(password).level >= 2
  {
  }

  /** What the form shows once `signUp` answers: its error when the error is
      a non-empty string, the success dialog otherwise. */
  datatype Answer = ShowError(message: string) | ShowSuccess

  function AfterSignUp(error: Option<string>): (r: Answer)
    ensures r.ShowError? ==> error == Some(r.message) && r.message != ""
    ensures r.ShowSuccess? <==> error.None? || error == Some("")
  {
    if error.Some? && error.value != "" then ShowError(error.value) else ShowSuccess
  }
}
