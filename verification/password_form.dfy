/** The password helpers that the registration and password-reset forms
    both carry, word for word: the 0-4 strength score, its label and CSS
    class, and the group validator comparing password and confirmation. */
module PasswordForm {
  import opened Results
  import opened Text

  /** The class `[!@#$%^&*(),.?":{}|<>]`. */
  const SpecialChars := "!@#$%^&*(),.?\":{}|<>"
  const MinStrongLength := 8

  predicate IsSpecial(c: char)
  {
    c in SpecialChars
  }

  /** `/[a-z]/`, `/[A-Z]/`, `/\d/` and the special class each test whether
      some character of the password falls in the class. */
  predicate HasLower(p: string) { exists i :: 0 <= i < |p| && IsAsciiLower(p[i]) }
  predicate HasUpper(p: string) { exists i :: 0 <= i < |p| && IsAsciiUpper(p[i]) }
  predicate HasDigit(p: string) { exists i :: 0 <= i < |p| && IsAsciiDigit(p[i]) }
  predicate HasSpecial(p: string) { exists i :: 0 <= i < |p| && IsSpecial(p[i]) }

  function Count(b: bool): nat { if b then 1 else 0 }

  /** Reference score: one point per criterion met. */
  function CriteriaMet(p: string): nat
  {
    Count(Utf16Length(p) >= MinStrongLength) + Count(HasLower(p) && HasUpper(p)) + Count(HasDigit(p)) + Count(HasSpecial(p))
  }

  /** `calculatePasswordStrength`: one pass over the password recording
      which classes occur, then one point per criterion, the length one on
      UTF-16 code units. The score is 0 for an empty password and never exceeds 4. */
  method CalculatePasswordStrength(password: string) returns (strength: nat)
    ensures strength == CriteriaMet(password)
    ensures strength <= 4
    ensures password == "" ==> strength == 0
  {
    if password == "" {
      return 0;
    }
    var lower, upper, digit, special := false, false, false, false;
    var i := 0;
    while i < |password|
      invariant 0 <= i <= |password|
      invariant lower <==> exists k :: 0 <= k < i && IsAsciiLower(password[k])
      invariant upper <==> exists k :: 0 <= k < i && IsAsciiUpper(password[k])
      invariant digit <==> exists k :: 0 <= k < i && IsAsciiDigit(password[k])
      invariant special <==> exists k :: 0 <= k < i && IsSpecial(password[k])
    {
      var c := password[i];
      lower := lower || IsAsciiLower(c);
      upper := upper || IsAsciiUpper(c);
      digit := digit || IsAsciiDigit(c);
      special := special || IsSpecial(c);
      i := i + 1;
    }
    strength := 0;
    if Utf16Length(password) >= MinStrongLength { strength := strength + 1; }
    if lower && upper { strength := strength + 1; }
    if digit { strength := strength + 1; }
    if special { strength := strength + 1; }
  }

  /** The length point counts code units: four characters outside the Basic
      Multilingual Plane earn it, and nothing else, since they fall in none
      of the character classes. */
  lemma AstralPasswordEarnsLengthPoint()
    ensures CriteriaMet("\U{1F600}\U{1F600}\U{1F600}\U{1F600}") == 1
  {
    var p := "\U{1F600}\U{1F600}\U{1F600}\U{1F600}";
    forall i | 0 <= i < |p| ensures p[i] == '\U{1F600}' && !IsSpecial(p[i]) {
      assert '\U{1F600}' !in SpecialChars;
    }
  }

  const StrengthTexts := ["Weak", "Fair", "Good", "Strong", "Very Strong"]
  const StrengthClasses := ["strength-weak", "strength-fair", "strength-good", "strength-strong", "strength-very-strong"]

  /** `getPasswordStrengthText`: the label for 0-4, 'Weak' for anything else. */
  function StrengthText(strength: int): (r: string)
    ensures 0 <= strength < 5 ==> r == StrengthTexts[strength]
    ensures !(0 <= strength < 5) ==> r == "Weak"
  {
    if 0 <= strength < |StrengthTexts| then StrengthTexts[strength] else "Weak"
  }

  /** `getPasswordStrengthClass`: the class for 0-4, 'strength-weak' otherwise. */
  function StrengthClass(strength: int): (r: string)
    ensures 0 <= strength < 5 ==> r == StrengthClasses[strength]
    ensures !(0 <= strength < 5) ==> r == "strength-weak"
  {
    if 0 <= strength < |StrengthClasses| then StrengthClasses[strength] else "strength-weak"
  }

  /** A label as a CSS class suffix: lower case, blanks as hyphens. */
  function Slug(s: string): (r: string)
  {
    seq(|s|, i requires 0 <= i < |s| => if s[i] == ' ' then '-' else ToLowerChar(s[i]))
  }

  /** The class always names the label it is shown with: for every score,
      class == 'strength-' + slug(label). */
  lemma ClassMatchesText(strength: int)
    ensures StrengthClass(strength) == "strength-" + Slug(StrengthText(strength))
  {
  }

  const MismatchKey := "passwordMismatch"

  /** What the group validator reports: the group error, and whether it
      marked the confirmation control with the same error (`setErrors`). A
      control it does not mark keeps whatever errors it had. */
  datatype MatchCheck = MatchCheck(groupError: Option<string>, marksConfirmation: bool)

  /** `passwordMatchValidator`: with both controls present and their values
      different, a `passwordMismatch` error on the group and on the
      confirmation control; otherwise `null` and no marking. */
  function PasswordMatchValidator(password: Option<string>, confirmPassword: Option<string>): (r: MatchCheck)
    ensures r.groupError.Some? <==>
      password.Some? && confirmPassword.Some? && password.value != confirmPassword.value
    ensures r.groupError.Some? ==> r.groupError.value == MismatchKey
    ensures r.marksConfirmation <==> r.groupError.Some?
  {
    if password.Some? && confirmPassword.Some? && password.value != confirmPassword.value then
      MatchCheck(Some(MismatchKey), true)
    else
      MatchCheck(None, false)
  }

  /** Angular's `form.invalid` negated: every control passes its own
      validators and the group validator reported nothing. */
  predicate FormValid(controlsValid: bool, check: MatchCheck)
  {
    controlsValid && check.groupError.None?
  }
}
