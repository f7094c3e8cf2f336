/** The registration form (frontend Register.jsx): username, full name,
    password and its confirmation are checked before the account is
    requested. */
module Register {
  import opened Prelude
  import opened Text
  import opened Forms

  /** `formData`. */
  datatype Form = Form(username: string, password: string, confirmPassword: string, fullName: string)

  datatype Field = Username | Password | ConfirmPassword | FullName

  const MinUsernameLength: nat := 3
  const MinPasswordLength: nat := 6

  /** `/[A-Z]/.test(s)`, scanning from the left. */
  function TestUpper(s: string): bool {
    if |s| == 0 then false else IsUpper(s[0]) || TestUpper(s[1..])
  }

  /** `/[0-9]/.test(s)`, scanning from the left. */
  function TestDigit(s: string): bool {
    if |s| == 0 then false else IsDigit(s[0]) || TestDigit(s[1..])
  }

  /** Some character is an ASCII capital. */
  ghost predicate HasUpper(s: string) {
    exists i :: 0 <= i < |s| && IsUpper(s[i])
  }

  /** Some character is an ASCII digit. */
  ghost predicate HasDigit(s: string) {
    exists i :: 0 <= i < |s| && IsDigit(s[i])
  }

  lemma {:induction false} TestUpperFinds(s: string)
    ensures TestUpper(s) <==> HasUpper(s)
  {
    if |s| > 0 {
      TestUpperFinds(s[1..]);
      if HasUpper(s) && !IsUpper(s[0]) {
        var i :| 0 <= i < |s| && IsUpper(s[i]);
        assert s[1..][i - 1] == s[i];
      }
      if TestUpper(s[1..]) {
        var i :| 0 <= i < |s[1..]| && IsUpper(s[1..][i]);
        assert s[i + 1] == s[1..][i];
      }
    }
  }

  lemma {:induction false} TestDigitFinds(s: string)
    ensures TestDigit(s) <==> HasDigit(s)
  {
    if |s| > 0 {
      TestDigitFinds(s[1..]);
      if HasDigit(s) && !IsDigit(s[0]) {
        var i :| 0 <= i < |s| && IsDigit(s[i]);
        assert s[1..][i - 1] == s[i];
      }
      if TestDigit(s[1..]) {
        var i :| 0 <= i < |s[1..]| && IsDigit(s[1..][i]);
        assert s[i + 1] == s[1..][i];
      }
    }
  }

  /** Username: blank is missing; otherwise its raw length, white space
      included, must reach the minimum. */
  function UsernameMessage(u: string): Option<Message> {
    if Trim(u) == "" then Some(Required)
    else if |u| < MinUsernameLength then Some(TooShort(MinUsernameLength))
    else None
  }

  function FullNameMessage(n: string): Option<Message> {
    if Trim(n) == "" then Some(Required) else None
  }

  /** The password chain; the first rule that fails is reported. */
  function PasswordMessage(p: string): Option<Message> {
    if p == "" then Some(Required)
    else if |p| < MinPasswordLength then Some(TooShort(MinPasswordLength))
    else if !TestUpper(p) then Some(NeedsUppercase)
    else if !TestDigit(p) then Some(NeedsDigit)
    else None
  }

  function ConfirmMessage(p: string, c: string): Option<Message> {
    if p != c then Some(Mismatch) else None
  }

  /** `validateForm`: the four entries are set by their own checks. */
  function Validate(f: Form): (errors: Errors<Field>)
    ensures Username in errors <==> UsernameMessage(f.username).Some?
    ensures FullName in errors <==> FullNameMessage(f.fullName).Some?
    ensures Password in errors <==> PasswordMessage(f.password).Some?
    ensures ConfirmPassword in errors <==> f.password != f.confirmPassword
    ensures Username in errors ==> errors[Username] == UsernameMessage(f.username).value
    ensures FullName in errors ==> errors[FullName] == Required
    ensures Password in errors ==> errors[Password] == PasswordMessage(f.password).value
    ensures ConfirmPassword in errors ==> errors[ConfirmPassword] == Mismatch
  {
    var e0: Errors<Field> := map[];
    var e1 := Record(e0, Username, UsernameMessage(f.username));
    var e2 := Record(e1, FullName, FullNameMessage(f.fullName));
    var e3 := Record(e2, Password, PasswordMessage(f.password));
    Record(e3, ConfirmPassword, ConfirmMessage(f.password, f.confirmPassword))
  }

  predicate IsValid(f: Form) {
    |Validate(f)| == 0
  }

  /** The rules a password must meet, stated on its characters. */
  ghost predicate StrongPassword(p: string) {
    |p| >= MinPasswordLength && HasUpper(p) && HasDigit(p)
  }

  /** The password chain accepts exactly the strong passwords, and a
      rejected one is reported by the first rule it breaks. */
  lemma PasswordRules(p: string)
    ensures PasswordMessage(p).None? <==> StrongPassword(p)
    ensures |p| < MinPasswordLength ==> PasswordMessage(p).Some? && PasswordMessage(p).value in {Required, TooShort(MinPasswordLength)}
    ensures |p| >= MinPasswordLength && !HasUpper(p) ==> PasswordMessage(p) == Some(NeedsUppercase)
    ensures |p| >= MinPasswordLength && HasUpper(p) && !HasDigit(p) ==> PasswordMessage(p) == Some(NeedsDigit)
  {
    TestUpperFinds(p);
    TestDigitFinds(p);
  }

  /** The registration the form lets through: a username that is not
      blank and at least 3 characters long, a full name that is not blank,
      a strong password, and a confirmation equal to it. */
  lemma ValidIff(f: Form)
    ensures IsValid(f) <==>
              !IsBlank(f.username) && |f.username| >= MinUsernameLength &&
              !IsBlank(f.fullName) &&
              StrongPassword(f.password) &&
              f.confirmPassword == f.password
  {
    PasswordRules(f.password);
    TrimEmptyIffBlank(f.username);
    TrimEmptyIffBlank(f.fullName);
    assert IsValid(f) <==> Validate(f).Keys == {};
  }

  /** The length rule counts white space: a one-letter name padded with
      spaces passes, and is sent untrimmed. */
  lemma PaddedUsernamePasses()
    ensures UsernameMessage(" a ").None?
    ensures UsernameMessage("a").Some?
  {
    assert !IsSpace(" a "[1]);
    TrimEmptyIffBlank(" a ");
    TrimEmptyIffBlank("a");
  }

  /** What `handleSubmit` passes to `register`: the username, password and
      full name exactly as typed, and only for a valid form. */
  function Submit(f: Form): (r: Option<(string, string, string)>)
    ensures r.Some? <==> IsValid(f)
    ensures r.Some? ==> r.value == (f.username, f.password, f.fullName) && f.confirmPassword == f.password
  {
    if IsValid(f) then
      assert Validate(f).Keys == {};
      Some((f.username, f.password, f.fullName))
    else None
  }
}
