/**
 * The sign-up and sign-in forms: which fields are trimmed, the checks `validate` makes and
 * the error each field shows, and when the authentication call is made. The email check
 * `Patterns.EMAIL_ADDRESS` is the parameter `emailPattern`.
 */
module AuthForms {
  import opened Wrappers
  import opened Text

  type EmailPattern = string -> bool

  const MinPasswordLength: nat := 6

  /** The error of the email field: empty first, then the pattern. */
  function EmailError(email: string, emailPattern: EmailPattern): (r: Option<string>)
    ensures r.None? <==> email != "" && emailPattern(email)
    ensures email == "" ==> r == Some("Please enter your email")
  {
    if email == "" then Some("Please enter your email")
    else if !emailPattern(email) then Some("Invalid email format")
    else None
  }

  /** The error of a password field, with the screen's own wording for an empty one. */
  function PasswordError(password: string, emptyMessage: string): (r: Option<string>)
    ensures r.None? <==> Utf16Length(password) >= MinPasswordLength
    ensures password == "" ==> r == Some(emptyMessage)
  {
    if password == "" then Some(emptyMessage)
    else if Utf16Length(password) < MinPasswordLength then Some("Password must be at least 6 characters")
    else None
  }

  /** Three characters outside the Basic Multilingual Plane are six code units: long enough. */
  lemma AstralPasswordAccepted()
    ensures var p := "\U{1F600}\U{1F600}\U{1F600}";
            |p| == 3 && PasswordError(p, "Please enter a password").None?
  {
    var p := "\U{1F600}\U{1F600}\U{1F600}";
    assert p[..2][..1] == p[..1];
    assert p[..3][..2] == p[..2];
    assert Utf16Length(p[..1]) == 2;
  }

  /** `Regex("^[0-9]{10}$")` matched against the whole text. */
  predicate TenDigits(phone: string) {
    |phone| == 10 && forall k :: 0 <= k < |phone| ==> '0' <= phone[k] <= '9'
  }

  function PhoneError(phone: string): (r: Option<string>)
    ensures r.None? <==> TenDigits(phone)
    ensures phone == "" ==> r == Some("Please enter your phone number")
  {
    if phone == "" then Some("Please enter your phone number")
    else if !TenDigits(phone) then Some("Phone number must contain exactly 10 digits")
    else None
  }

  function ConfirmError(password: string, confirm: string): (r: Option<string>)
    ensures r.None? <==> confirm != "" && confirm == password
    ensures confirm == "" ==> r == Some("Please confirm your password")
  {
    if confirm == "" then Some("Please confirm your password")
    else if password != confirm then Some("Passwords do not match")
    else None
  }

  function NameError(name: string): (r: Option<string>)
    ensures r.None? <==> name != ""
  {
    if name == "" then Some("Please enter your name") else None
  }

  /** A field's error after validation: a new error replaces it, a valid field keeps the old one. */
  function Shown(error: Option<string>, previous: Option<string>): Option<string> {
    if error.Some? then error else previous
  }

  /** The sign-up form is accepted when no field has an error. */
  predicate RegisterAccepted(name: string, email: string, phone: string, password: string,
                             confirm: string, emailPattern: EmailPattern) {
    && NameError(name).None? && EmailError(email, emailPattern).None? && PhoneError(phone).None?
    && PasswordError(password, "Please enter a password").None? && ConfirmError(password, confirm).None?
  }

  /** What sign-up demands of the (trimmed) fields, stated directly. */
  lemma RegisterAcceptedIff(name: string, email: string, phone: string, password: string,
                            confirm: string, emailPattern: EmailPattern)
    ensures RegisterAccepted(name, email, phone, password, confirm, emailPattern) <==>
              && name != "" && email != "" && emailPattern(email) && TenDigits(phone)
              && Utf16Length(password) >= MinPasswordLength && confirm == password
  {
  }

  /** A field of spaces is trimmed to nothing and reported as missing, not as malformed. */
  lemma BlankIsMissing(raw: string, emailPattern: EmailPattern)
    requires forall k :: 0 <= k < |raw| ==> IsWhitespace(raw[k])
    ensures NameError(Trim(raw)) == Some("Please enter your name")
    ensures EmailError(Trim(raw), emailPattern) == Some("Please enter your email")
    ensures PhoneError(Trim(raw)) == Some("Please enter your phone number")
  {
  }

  /** The arguments of `repo.register(name, email, password, phone)`. */
  datatype RegisterCall = RegisterCall(name: string, email: string, password: string, phone: string)

  /** The error shown on each field of the sign-up screen. */
  class RegisterForm {
    var nameError: Option<string>
    var emailError: Option<string>
    var phoneError: Option<string>
    var passwordError: Option<string>
    var confirmError: Option<string>

    constructor ()
      ensures nameError == emailError == phoneError == passwordError == confirmError == None
    {
      nameError, emailError, phoneError, passwordError, confirmError := None, None, None, None, None;
    }

    /**
     * validate: every field is checked in turn, with no short cut, and each failing one gets
     * its error.
     */
    method Validate(name: string, email: string, phone: string, password: string, confirm: string,
                    emailPattern: EmailPattern) returns (isValid: bool)
      modifies this
      ensures isValid <==> RegisterAccepted(name, email, phone, password, confirm, emailPattern)
      ensures nameError == Shown(NameError(name), old(nameError))
      ensures emailError == Shown(EmailError(email, emailPattern), old(emailError))
      ensures phoneError == Shown(PhoneError(phone), old(phoneError))
      ensures passwordError == Shown(PasswordError(password, "Please enter a password"), old(passwordError))
      ensures confirmError == Shown(ConfirmError(password, confirm), old(confirmError))
    {
      isValid := true;
      var ok := CheckName(name);
      isValid := isValid && ok;
      ok := CheckEmail(email, emailPattern);
      isValid := isValid && ok;
      ok := CheckPhone(phone);
      isValid := isValid && ok;
      ok := CheckPassword(password);
      isValid := isValid && ok;
      ok := CheckConfirm(password, confirm);
      isValid := isValid && ok;
    }

    method CheckName(name: string) returns (ok: bool)
      modifies this
      ensures ok <==> NameError(name).None?
      ensures nameError == Shown(NameError(name), old(nameError))
      ensures emailError == old(emailError) && phoneError == old(phoneError)
      ensures passwordError == old(passwordError) && confirmError == old(confirmError)
    {
      ok := true;
      if name == "" {
        nameError := Some("Please enter your name");
        ok := false;
      }
    }

    method CheckEmail(email: string, emailPattern: EmailPattern) returns (ok: bool)
      modifies this
      ensures ok <==> EmailError(email, emailPattern).None?
      ensures emailError == Shown(EmailError(email, emailPattern), old(emailError))
      ensures nameError == old(nameError) && phoneError == old(phoneError)
      ensures passwordError == old(passwordError) && confirmError == old(confirmError)
    {
      ok := true;
      if email == "" {
        emailError := Some("Please enter your email");
        ok := false;
      } else if !emailPattern(email) {
        emailError := Some("Invalid email format");
        ok := false;
      }
    }

    method CheckPhone(phone: string) returns (ok: bool)
      modifies this
      ensures ok <==> PhoneError(phone).None?
      ensures phoneError == Shown(PhoneError(phone), old(phoneError))
      ensures nameError == old(nameError) && emailError == old(emailError)
      ensures passwordError == old(passwordError) && confirmError == old(confirmError)
    {
      ok := true;
      if phone == "" {
        phoneError := Some("Please enter your phone number");
        ok := false;
      } else if !TenDigits(phone) {
        phoneError := Some("Phone number must contain exactly 10 digits");
        ok := false;
      }
    }

    method CheckPassword(password: string) returns (ok: bool)
      modifies this
      ensures ok <==> PasswordError(password, "Please enter a password").None?
      ensures passwordError == Shown(PasswordError(password, "Please enter a password"), old(passwordError))
      ensures nameError == old(nameError) && emailError == old(emailError)
      ensures phoneError == old(phoneError) && confirmError == old(confirmError)
    {
      ok := true;
      if password == "" {
        passwordError := Some("Please enter a password");
        ok := false;
      } else if Utf16Length(password) < MinPasswordLength {
        passwordError := Some("Password must be at least 6 characters");
        ok := false;
      }
    }

    method CheckConfirm(password: string, confirm: string) returns (ok: bool)
      modifies this
      ensures ok <==> ConfirmError(password, confirm).None?
      ensures confirmError == Shown(ConfirmError(password, confirm), old(confirmError))
      ensures nameError == old(nameError) && emailError == old(emailError)
      ensures phoneError == old(phoneError) && passwordError == old(passwordError)
    {
      ok := true;
      if confirm == "" {
        confirmError := Some("Please confirm your password");
        ok := false;
      } else if password != confirm {
        confirmError := Some("Passwords do not match");
        ok := false;
      }
    }

    /**
     * The register button: name, email and phone are trimmed, the two passwords are taken
     * as typed; the sign-up call is made only for an accepted form.
     */
    method Submit(name: string, email: string, phone: string, password: string, confirm: string,
                  emailPattern: EmailPattern) returns (call: Option<RegisterCall>)
      modifies this
      ensures call.Some? <==> RegisterAccepted(Trim(name), Trim(email), Trim(phone), password, confirm, emailPattern)
      ensures call.Some? ==> call.value == RegisterCall(Trim(name), Trim(email), password, Trim(phone))
      ensures nameError == Shown(NameError(Trim(name)), old(nameError))
      ensures emailError == Shown(EmailError(Trim(email), emailPattern), old(emailError))
      ensures phoneError == Shown(PhoneError(Trim(phone)), old(phoneError))
      ensures passwordError == Shown(PasswordError(password, "Please enter a password"), old(passwordError))
      ensures confirmError == Shown(ConfirmError(password, confirm), old(confirmError))
    {
      var n, e, p := Trim(name), Trim(email), Trim(phone);
      var ok := Validate(n, e, p, password, confirm, emailPattern);
      if !ok {
        return None;
      }
      call := Some(RegisterCall(n, e, password, p));
    }
  }

  /** The sign-in form is accepted when neither field has an error. */
  predicate LoginAccepted(email: string, password: string, emailPattern: EmailPattern) {
    EmailError(email, emailPattern).None? && PasswordError(password, "Please enter your password").None?
  }

  lemma LoginAcceptedIff(email: string, password: string, emailPattern: EmailPattern)
    ensures LoginAccepted(email, password, emailPattern) <==>
              email != "" && emailPattern(email) && Utf16Length(password) >= MinPasswordLength
  {
  }

  /** Every form sign-up accepts would also pass the sign-in checks with the same email and password. */
  lemma RegisteredCanLogIn(name: string, email: string, phone: string, password: string,
                           confirm: string, emailPattern: EmailPattern)
    requires RegisterAccepted(name, email, phone, password, confirm, emailPattern)
    ensures LoginAccepted(email, password, emailPattern)
  {
    RegisterAcceptedIff(name, email, phone, password, confirm, emailPattern);
  }

  /** The arguments of `repo.login(email, password)`. */
  datatype LoginCall = LoginCall(email: string, password: string)

  /** The error shown on each field of the sign-in screen. */
  class LoginForm {
    var emailError: Option<string>
    var passwordError: Option<string>

    constructor ()
      ensures emailError == passwordError == None
    {
      emailError, passwordError := None, None;
    }

    /** validate: both fields are checked, each failing one gets its error. */
    method Validate(email: string, password: string, emailPattern: EmailPattern) returns (isValid: bool)
      modifies this
      ensures isValid <==> LoginAccepted(email, password, emailPattern)
      ensures emailError == Shown(EmailError(email, emailPattern), old(emailError))
      ensures passwordError == Shown(PasswordError(password, "Please enter your password"), old(passwordError))
    {
      isValid := true;
      if email == "" {
        emailError := Some("Please enter your email");
        isValid := false;
      } else if !emailPattern(email) {
        emailError := Some("Invalid email format");
        isValid := false;
      }
      if password == "" {
        passwordError := Some("Please enter your password");
        isValid := false;
      } else if Utf16Length(password) < MinPasswordLength {
        passwordError := Some("Password must be at least 6 characters");
        isValid := false;
      }
    }

    /** The login button: the email is trimmed, the password taken as typed. */
    method Submit(email: string, password: string, emailPattern: EmailPattern) returns (call: Option<LoginCall>)
      modifies this
      ensures call.Some? <==> LoginAccepted(Trim(email), password, emailPattern)
      ensures call.Some? ==> call.value == LoginCall(Trim(email), password)
      ensures emailError == Shown(EmailError(Trim(email), emailPattern), old(emailError))
      ensures passwordError == Shown(PasswordError(password, "Please enter your password"), old(passwordError))
    {
      var e := Trim(email);
      var ok := Validate(e, password, emailPattern);
      if !ok {
        return None;
      }
      call := Some(LoginCall(e, password));
    }
  }
}
