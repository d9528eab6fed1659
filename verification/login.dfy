/** The login page: its two forms' validation, the employee-id-to-email
    identity both forms send to the auth provider, and how the provider's
    answers are reported. */
module Login {
  import opened Wrappers
  import opened Text

  const MaxEmployeeId: nat := 50
  const MinPassword: nat := 8
  const MaxPassword: nat := 100
  const MaxFullName: nat := 100

  /** The domain every employee id is turned into an address under. */
  const IdentityDomain: string := "@company.internal"

  /** The schemas' complaints, in the order their fields are declared:
      employee id, password, then (sign-up only) full name and the match. */
  datatype InputError =
    | EmployeeIdRequired | EmployeeIdTooLong
    | PasswordTooShort | PasswordTooLong
    | FullNameRequired | FullNameTooLong
    | PasswordsDoNotMatch

  /** `loginSchema`'s first error: the trimmed employee id must be 1..50 code
      units, the password, untrimmed, 8..100. */
  function ValidateLogin(employeeId: string, password: string): (r: Option<InputError>)
    ensures r.None? <==>
      1 <= JsLength(Trim(employeeId)) <= MaxEmployeeId && MinPassword <= JsLength(password) <= MaxPassword
    ensures r == Some(EmployeeIdRequired) <==> IsBlank(employeeId)
    ensures r == Some(EmployeeIdTooLong) <==> JsLength(Trim(employeeId)) > MaxEmployeeId
    ensures r == Some(PasswordTooShort) <==> 1 <= JsLength(Trim(employeeId)) <= MaxEmployeeId && JsLength(password) < MinPassword
    ensures r == Some(PasswordTooLong) <==> 1 <= JsLength(Trim(employeeId)) <= MaxEmployeeId && JsLength(password) > MaxPassword
    ensures r.Some? ==> r.value in {EmployeeIdRequired, EmployeeIdTooLong, PasswordTooShort, PasswordTooLong}
  {
    match CheckLength(JsLength(Trim(employeeId)), 1, MaxEmployeeId)
    case Some(TooShort) => Some(EmployeeIdRequired)
    case Some(TooLong) => Some(EmployeeIdTooLong)
    case None =>
      match CheckLength(JsLength(password), MinPassword, MaxPassword)
      case Some(TooShort) => Some(PasswordTooShort)
      case Some(TooLong) => Some(PasswordTooLong)
      case None => None
  }

  /** `signupSchema`'s first error: the login fields, then the trimmed full
      name (1..100 code units), then the two passwords must be equal. */
  function ValidateSignup(employeeId: string, fullName: string, password: string, confirm: string): (r: Option<InputError>)
    ensures r.None? <==>
      (ValidateLogin(employeeId, password).None? && 1 <= JsLength(Trim(fullName)) <= MaxFullName && password == confirm)
    ensures ValidateLogin(employeeId, password).Some? ==> r == ValidateLogin(employeeId, password)
    ensures r == Some(FullNameRequired) <==> ValidateLogin(employeeId, password).None? && IsBlank(fullName)
    ensures r == Some(FullNameTooLong) <==> ValidateLogin(employeeId, password).None? && JsLength(Trim(fullName)) > MaxFullName
    ensures r == Some(PasswordsDoNotMatch) <==>
      ValidateLogin(employeeId, password).None? && 1 <= JsLength(Trim(fullName)) <= MaxFullName && password != confirm
  {
    match ValidateLogin(employeeId, password)
    case Some(e) => Some(e)
    case None =>
      match CheckLength(JsLength(Trim(fullName)), 1, MaxFullName)
      case Some(TooShort) => Some(FullNameRequired)
      case Some(TooLong) => Some(FullNameTooLong)
      case None => if password != confirm then Some(PasswordsDoNotMatch) else None
  }

  /** The auth identity of an employee id: the id as typed, untrimmed,
      followed by the fixed domain. */
  function Identity(employeeId: string): (email: string)
    ensures |email| == |employeeId| + |IdentityDomain|
    ensures email[..|employeeId|] == employeeId && email[|employeeId|..] == IdentityDomain
  {
    employeeId + IdentityDomain
  }

  /** Different employee ids give different identities, and the id can be
      read back from its identity. */
  lemma IdentityInjective(a: string, b: string)
    ensures Identity(a) == Identity(b) <==> a == b
  {
    if Identity(a) == Identity(b) {
      assert |a| == |b|;
      assert a == Identity(a)[..|a|] == Identity(b)[..|b|] == b;
    }
  }

  /** Validation trims, the identity does not: an id typed with a leading
      space or other whitespace gets exactly the verdict of the bare id, yet
      sends the auth provider a different identity. */
  lemma SpacedIdSendsAnotherIdentity(c: char, employeeId: string, password: string)
    requires IsWhitespace(c)
    ensures ValidateLogin([c] + employeeId, password) == ValidateLogin(employeeId, password)
    ensures Identity([c] + employeeId) != Identity(employeeId)
  {
    assert ValidateLogin([c] + employeeId, password) == ValidateLogin(employeeId, password) by {
      TrimSkipsLeadingSpace(c, employeeId);
    }
    assert Identity([c] + employeeId) != Identity(employeeId) by {
      assert |[c] + employeeId| != |employeeId|;
    }
  }

  /** What the forms send to the auth provider. */
  datatype Credentials = Credentials(email: string, password: string)

  /** `handleLogin` up to the provider call: invalid input stops before the
      call; valid input sends the identity and the raw password. */
  function LoginRequest(employeeId: string, password: string): (r: Result<Credentials, InputError>)
    ensures r.Err? <==> ValidateLogin(employeeId, password).Some?
    ensures r.Err? ==> r.error == ValidateLogin(employeeId, password).value
    ensures r.Ok? ==> r.value.email == Identity(employeeId) && r.value.password == password
  {
    match ValidateLogin(employeeId, password)
    case Some(e) => Err(e)
    case None => Ok(Credentials(Identity(employeeId), password))
  }

  /** Signing up and then logging in with the same id and password sends
      the provider the identity and password the account was created with:
      every sign-up the form sends, the login form accepts and matches. */
  lemma SignUpThenLogin(employeeId: string, fullName: string, password: string, confirm: string)
    ensures SignUpRequest(employeeId, fullName, password, confirm).Ok? ==>
      var call := SignUpRequest(employeeId, fullName, password, confirm).value;
      LoginRequest(employeeId, password) == Ok(Credentials(call.email, call.password))
  {
  }

  /** The provider's answer to a sign-in: whether it returned an error and
      whether it returned a session. */
  datatype SignInReply = SignInReply(failed: bool, hasSession: bool)

  datatype LoginOutcome = LoginRejected(reason: InputError) | InvalidCredentials | LoggedIn(email: string)

  /** The whole login: a sign-in counts only when the provider returned no
      error and a session; both failures read "Invalid Employee ID or
      Password". The reply plays no part when the input is invalid. */
  function LoginOutcomeOf(employeeId: string, password: string, reply: SignInReply): (r: LoginOutcome)
    ensures r.LoginRejected? <==> ValidateLogin(employeeId, password).Some?
    ensures ValidateLogin(employeeId, password).Some? ==> r == LoginRejected(ValidateLogin(employeeId, password).value)
    ensures r.LoggedIn? <==> ValidateLogin(employeeId, password).None? && !reply.failed && reply.hasSession
    ensures r.LoggedIn? ==> r.email == Identity(employeeId)
  {
    match LoginRequest(employeeId, password)
    case Err(e) => LoginRejected(e)
    case Ok(c) => if reply.failed || !reply.hasSession then InvalidCredentials else LoggedIn(c.email)
  }

  /** The sign-up call: the identity, the raw password, and the profile
      metadata, which records the id and the name as typed. */
  datatype SignUpCall = SignUpCall(email: string, password: string, employeeId: string, fullName: string)

  /** `handleSignup` up to the provider call. */
  function SignUpRequest(employeeId: string, fullName: string, password: string, confirm: string): (r: Result<SignUpCall, InputError>)
    ensures r.Err? <==> ValidateSignup(employeeId, fullName, password, confirm).Some?
    ensures r.Err? ==> r.error == ValidateSignup(employeeId, fullName, password, confirm).value
    ensures r.Ok? ==> r.value.email == Identity(employeeId) && r.value.password == password == confirm
    ensures r.Ok? ==> r.value.employeeId == employeeId && r.value.fullName == fullName
  {
    match ValidateSignup(employeeId, fullName, password, confirm)
    case Some(e) => Err(e)
    case None => Ok(SignUpCall(Identity(employeeId), password, employeeId, fullName))
  }

  /** The phrase the provider's duplicate-account message contains. */
  const AlreadyRegisteredPhrase: string := "already registered"

  datatype SignUpOutcome = SignedUp | AlreadyRegistered | SignUpFailed

  /** The provider's answer to a sign-up, given as its error message if it
      returned one: a message containing "already registered" reads as a
      taken employee id, any other error as a generic failure. */
  function SignUpOutcomeOf(error: Option<string>): (r: SignUpOutcome)
    ensures r == SignedUp <==> error.None?
    ensures r == AlreadyRegistered <==> error.Some? && OccursIn(AlreadyRegisteredPhrase, error.value)
    ensures r == SignUpFailed <==> error.Some? && !OccursIn(AlreadyRegisteredPhrase, error.value)
  {
    match error
    case None => SignedUp
    case Some(message) => if Includes(message, AlreadyRegisteredPhrase) then AlreadyRegistered else SignUpFailed
  }
}
