/** The two sign-in forms: the web page (`src/components/Auth.tsx`) with its ordered
    first-failure validation, admin shortcut, field edits and mode toggle, and the mobile
    screen (`app/auth.tsx`), whose validation has no minimum password length. The
    authentication service is an oracle: its reply to the one call a submit may make is a
    parameter. */
module Auth {
  import opened Options
  import opened JsString

  /** `formData`: the three text fields. */
  datatype Form = Form(email: string, password: string, confirmPassword: string)

  const EmptyForm := Form("", "", "")

  const MinPasswordLength := 6

  const AdminEmail := "admin@rudracore.com"

  /** The web form's validation messages, in the order they are checked. */
  datatype FormError = EmailRequired | PasswordRequired | PasswordTooShort | PasswordsDiffer

  /** What a well-filled web form is: an email, a password of at least six characters and, when
      signing up, a matching confirmation. */
  predicate Valid(f: Form, isSignUp: bool)
  {
    f.email != "" && |f.password| >= MinPasswordLength && (isSignUp ==> f.password == f.confirmPassword)
  }

  /** `validateForm()`: `None` for a valid form, otherwise the first failing check. */
  function ValidateForm(f: Form, isSignUp: bool): (r: Option<FormError>)
    ensures r.None? <==> Valid(f, isSignUp)
    ensures r == Some(EmailRequired) <==> f.email == ""
    ensures r == Some(PasswordRequired) <==> f.email != "" && f.password == ""
    ensures r == Some(PasswordTooShort) <==> f.email != "" && 0 < |f.password| < MinPasswordLength
    ensures r == Some(PasswordsDiffer) <==>
      f.email != "" && |f.password| >= MinPasswordLength && isSignUp && f.password != f.confirmPassword
  {
    if f.email == "" then Some(EmailRequired)
    else if f.password == "" then Some(PasswordRequired)
    else if |f.password| < MinPasswordLength then Some(PasswordTooShort)
    else if isSignUp && f.password != f.confirmPassword then Some(PasswordsDiffer)
    else None
  }

  /** The shortcut test `email.toLowerCase() === 'admin@rudracore.com'`. */
  predicate IsAdminEmail(email: string)
  {
    Lower(email) == AdminEmail
  }

  /** The reply of the authentication service to a sign-up or sign-in call. */
  datatype Reply = Accepted(user: string) | Refused(message: string) | Threw

  /** The one call a submit may make. */
  datatype Call = NoCall | SignUpCall(email: string, password: string) | SignInCall(email: string, password: string)

  /** The web page's error line: a validation message, the service's message, or the generic
      text of the `catch` branch. */
  datatype Notice = Invalid(reason: FormError) | ServiceError(message: string) | Unexpected

  datatype Success = AccountCreated | WelcomeBack

  /** The web page's state. */
  datatype Page = Page(form: Form, isSignUp: bool, error: Option<Notice>, success: Option<Success>)

  /** What a submit did: the call it made, the page afterwards, whether it opened the admin
      page and the user it reported to `onAuthSuccess`. */
  datatype Submitted = Submitted(call: Call, page: Page, openedAdmin: bool, signedIn: Option<string>)

  /** The error a failed call leaves behind. */
  function FailureNotice(reply: Reply): (n: Notice)
    requires !reply.Accepted?
    ensures n.ServiceError? <==> reply.Refused?
  {
    if reply.Refused? then ServiceError(reply.message) else Unexpected
  }

  /** `handleSubmit`: both messages are cleared, an invalid form only shows its first failure,
      an admin email in sign-in mode opens the admin page, and otherwise the service is called
      and `reply` decides the messages. */
  function WebSubmit(p: Page, reply: Reply): (r: Submitted)
    ensures r.page.form == p.form && r.page.isSignUp == p.isSignUp
    ensures r.call == SignUpCall(p.form.email, p.form.password) <==> Valid(p.form, p.isSignUp) && p.isSignUp
    ensures r.call == SignInCall(p.form.email, p.form.password) <==>
      Valid(p.form, p.isSignUp) && !p.isSignUp && !IsAdminEmail(p.form.email)
    ensures r.openedAdmin <==> Valid(p.form, p.isSignUp) && !p.isSignUp && IsAdminEmail(p.form.email)
    ensures r.call.NoCall? <==> !Valid(p.form, p.isSignUp) || r.openedAdmin
    ensures !Valid(p.form, p.isSignUp) ==>
      r.page.error == Some(Invalid(ValidateForm(p.form, p.isSignUp).value)) && r.page.success.None?
    ensures r.signedIn.Some? <==> r.call.SignInCall? && reply.Accepted?
    ensures r.page.error.Some? && r.page.success.Some? ==> false
    ensures r.page.error.None? && r.page.success.None? <==> r.openedAdmin
    ensures r.call.SignUpCall? && reply.Accepted? ==> r.page.success == Some(AccountCreated)
    ensures r.call.SignInCall? && reply.Accepted? ==> r.page.success == Some(WelcomeBack)
    ensures !r.call.NoCall? && reply.Refused? ==> r.page.error == Some(ServiceError(reply.message))
    ensures !r.call.NoCall? && reply.Threw? ==> r.page.error == Some(Unexpected)
  {
    var cleared := p.(error := None, success := None);
    var invalid := ValidateForm(p.form, p.isSignUp);
    if invalid.Some? then
      Submitted(NoCall, cleared.(error := Some(Invalid(invalid.value))), false, None)
    else if p.isSignUp then
      var call := SignUpCall(p.form.email, p.form.password);
      if reply.Accepted? then Submitted(call, cleared.(success := Some(AccountCreated)), false, None)
      else Submitted(call, cleared.(error := Some(FailureNotice(reply))), false, None)
    else if IsAdminEmail(p.form.email) then
      Submitted(NoCall, cleared, true, None)
    else
      var call := SignInCall(p.form.email, p.form.password);
      if reply.Accepted? then Submitted(call, cleared.(success := Some(WelcomeBack)), false, Some(reply.user))
      else Submitted(call, cleared.(error := Some(FailureNotice(reply))), false, None)
  }

  /** The two-second timer after a successful sign-up: back to sign-in mode with empty fields. */
  function AfterSignUp(p: Page): (r: Page)
    ensures !r.isSignUp && r.form == EmptyForm
    ensures r.error == p.error && r.success == p.success
  {
    p.(isSignUp := false, form := EmptyForm)
  }

  /** The field names `handleInputChange` is called with. */
  datatype Field = Email | Password | ConfirmPassword

  function FieldValue(f: Form, field: Field): string
  {
    match field
    case Email => f.email
    case Password => f.password
    case ConfirmPassword => f.confirmPassword
  }

  /** `handleInputChange(field, value)`: the named field takes the value, the others keep theirs,
      and the error line is cleared. */
  function InputChange(p: Page, field: Field, value: string): (r: Page)
    ensures FieldValue(r.form, field) == value
    ensures forall other: Field | other != field :: FieldValue(r.form, other) == FieldValue(p.form, other)
    ensures r.error.None? && r.success == p.success && r.isSignUp == p.isSignUp
  {
    var form := match field
      case Email => p.form.(email := value)
      case Password => p.form.(password := value)
      case ConfirmPassword => p.form.(confirmPassword := value);
    p.(form := form, error := None)
  }

  /** A form is determined by its three field values. */
  lemma FormExtensionality(f: Form, g: Form)
    requires forall field: Field :: FieldValue(f, field) == FieldValue(g, field)
    ensures f == g
  {
    assert FieldValue(f, Email) == FieldValue(g, Email);
    assert FieldValue(f, Password) == FieldValue(g, Password);
    assert FieldValue(f, ConfirmPassword) == FieldValue(g, ConfirmPassword);
  }

  /** Edits of different fields commute, and a later edit of the same field overrides an
      earlier one. */
  lemma InputChangesCompose(p: Page, a: Field, x: string, b: Field, y: string)
    ensures a != b ==> InputChange(InputChange(p, a, x), b, y) == InputChange(InputChange(p, b, y), a, x)
    ensures a == b ==> InputChange(InputChange(p, a, x), b, y) == InputChange(p, b, y)
  {
    var l := InputChange(InputChange(p, a, x), b, y);
    var r := if a != b then InputChange(InputChange(p, b, y), a, x) else InputChange(p, b, y);
    forall field: Field ensures FieldValue(l.form, field) == FieldValue(r.form, field) {
    }
    FormExtensionality(l.form, r.form);
  }

  /** The "sign up here" / "sign in here" link: the mode flips, and the fields and both
      messages are cleared. */
  function ToggleMode(p: Page): (r: Page)
    ensures r.isSignUp == !p.isSignUp
    ensures r.form == EmptyForm && r.error.None? && r.success.None?
  {
    Page(EmptyForm, !p.isSignUp, None, None)
  }

  /** Toggling twice keeps the mode and leaves only a cleared page. */
  lemma ToggleModeTwice(p: Page)
    ensures ToggleMode(ToggleMode(p)) == p.(form := EmptyForm, error := None, success := None)
  {
  }

  /** Right after a toggle, a submit never calls the service: the fields are empty. */
  lemma SubmitAfterToggleMakesNoCall(p: Page, reply: Reply)
    ensures WebSubmit(ToggleMode(p), reply).call.NoCall?
    ensures WebSubmit(ToggleMode(p), reply).page.error == Some(Invalid(EmailRequired))
  {
  }

  /** The shortcut ignores letter case. */
  lemma AdminEmailIgnoresCase(email: string, other: string)
    requires Lower(email) == Lower(other)
    ensures IsAdminEmail(email) <==> IsAdminEmail(other)
  {
  }

  /** A mixed-case spelling of the admin address takes the shortcut and calls nobody. */
  lemma MixedCaseAdminOpensAdmin(reply: Reply)
    ensures var r := WebSubmit(Page(Form("Admin@RudraCore.COM", "secret", ""), false, None, None), reply);
      r.openedAdmin && r.call.NoCall? && r.signedIn.None?
  {
    assert Lower("Admin@RudraCore.COM") == AdminEmail;
  }

  /** In sign-up mode the admin address is an ordinary account: it is sent to the service. */
  lemma AdminEmailSignsUpNormally(password: string, reply: Reply)
    requires |password| >= MinPasswordLength
    ensures WebSubmit(Page(Form(AdminEmail, password, password), true, None, None), reply).call
      == SignUpCall(AdminEmail, password)
  {
  }

  /** The mobile screen's alerts, with their literal titles and messages. */
  datatype Alert = Alert(title: string, message: string)

  const FillAllFields := Alert("Error", "Please fill all required fields")
  const PasswordsDoNotMatch := Alert("Error", "Passwords do not match")
  const AccountCreatedAlert := Alert("Success", "Account created successfully!")
  const WelcomeBackAlert := Alert("Success", "Welcome back!")
  const UnexpectedAlert := Alert("Error", "An error occurred. Please try again.")

  /** What a well-filled mobile form is: non-empty email and password and, when signing up, a
      matching confirmation. There is no length requirement. */
  predicate MobileValid(f: Form, isSignUp: bool)
  {
    f.email != "" && f.password != "" && (isSignUp ==> f.password == f.confirmPassword)
  }

  /** The mobile screen's state. */
  datatype Screen = Screen(form: Form, isSignUp: bool)

  /** What a mobile submit did: the call, the screen afterwards, the alert shown and whether
      the router went back. */
  datatype MobileSubmitted = MobileSubmitted(call: Call, screen: Screen, alert: Alert, wentBack: bool)

  /** The mobile `handleSubmit`. */
  function MobileSubmit(s: Screen, reply: Reply): (r: MobileSubmitted)
    ensures r.call.NoCall? <==> !MobileValid(s.form, s.isSignUp)
    ensures r.call.SignUpCall? ==> s.isSignUp && r.call == SignUpCall(s.form.email, s.form.password)
    ensures r.call.SignInCall? ==> !s.isSignUp && r.call == SignInCall(s.form.email, s.form.password)
    ensures s.form.email == "" || s.form.password == "" ==> r.alert == FillAllFields
    ensures r.alert == PasswordsDoNotMatch <==>
      s.form.email != "" && s.form.password != "" && s.isSignUp && s.form.password != s.form.confirmPassword
    ensures r.wentBack <==> r.call.SignInCall? && reply.Accepted?
    ensures r.screen != s <==> r.call.SignUpCall? && reply.Accepted?
    ensures r.call.SignUpCall? && reply.Accepted? ==> r.screen == Screen(EmptyForm, false)
    ensures r.call.SignUpCall? ==>
      r.alert == match reply
        case Accepted(_) => AccountCreatedAlert
        case Refused(m) => Alert("Sign Up Failed", m)
        case Threw => UnexpectedAlert
    ensures r.call.SignInCall? ==>
      r.alert == match reply
        case Accepted(_) => WelcomeBackAlert
        case Refused(m) => Alert("Sign In Failed", m)
        case Threw => UnexpectedAlert
  {
    if s.form.email == "" || s.form.password == "" then
      MobileSubmitted(NoCall, s, FillAllFields, false)
    else if s.isSignUp && s.form.password != s.form.confirmPassword then
      MobileSubmitted(NoCall, s, PasswordsDoNotMatch, false)
    else if s.isSignUp then
      var call := SignUpCall(s.form.email, s.form.password);
      match reply
      case Accepted(_) => MobileSubmitted(call, Screen(EmptyForm, false), AccountCreatedAlert, false)
      case Refused(m) => MobileSubmitted(call, s, Alert("Sign Up Failed", m), false)
      case Threw => MobileSubmitted(call, s, UnexpectedAlert, false)
    else
      var call := SignInCall(s.form.email, s.form.password);
      match reply
      case Accepted(_) => MobileSubmitted(call, s, WelcomeBackAlert, true)
      case Refused(m) => MobileSubmitted(call, s, Alert("Sign In Failed", m), false)
      case Threw => MobileSubmitted(call, s, UnexpectedAlert, false)
  }

  /** The mobile mode toggle: the mode flips and the fields are cleared. */
  function MobileToggleMode(s: Screen): (r: Screen)
    ensures r.isSignUp == !s.isSignUp && r.form == EmptyForm
  {
    Screen(EmptyForm, !s.isSignUp)
  }

  /** The web form accepts strictly less than the mobile one: everything the web page would
      send the mobile screen sends too. */
  lemma WebValidIsMobileValid(f: Form, isSignUp: bool)
    ensures Valid(f, isSignUp) ==> MobileValid(f, isSignUp)
    ensures MobileValid(f, isSignUp) && !Valid(f, isSignUp) <==>
      f.email != "" && 0 < |f.password| < MinPasswordLength && (isSignUp ==> f.password == f.confirmPassword)
  {
  }

  /** A one-character password: the mobile screen calls the service, the web page refuses it
      as too short. */
  lemma OneCharacterPassword(reply: Reply)
    ensures MobileSubmit(Screen(Form("a@b.in", "x", ""), false), reply).call == SignInCall("a@b.in", "x")
    ensures WebSubmit(Page(Form("a@b.in", "x", ""), false, None, None), reply).page.error
      == Some(Invalid(PasswordTooShort))
  {
  }

  /** Both forms make the same call once the web page's length rule holds and the admin
      shortcut does not apply. */
  lemma FormsAgreeOnLongPasswords(f: Form, isSignUp: bool, reply: Reply)
    requires |f.password| >= MinPasswordLength
    requires isSignUp || !IsAdminEmail(f.email)
    ensures WebSubmit(Page(f, isSignUp, None, None), reply).call == MobileSubmit(Screen(f, isSignUp), reply).call
  {
  }
}
