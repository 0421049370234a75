/** The sign-up form's submit handler: three checks in a fixed order, then the call
    to the account service, whose answer is a parameter here. */
module RegisterForm {
  import opened Wrappers
  import opened JsText

  datatype Form = Form(username: string, email: string, password: string, confirmPassword: string)

  /** What `register` resolves to. */
  datatype RegisterResult = RegisterResult(success: bool, message: string)

  const FillAllFields := "Please fill in all fields"
  const PasswordsDiffer := "Passwords do not match"
  const PasswordTooShort := "Password must be at least 6 characters"

  predicate AnyEmpty(f: Form) {
    f.username == "" || f.email == "" || f.password == "" || f.confirmPassword == ""
  }

  /** The first failing check's message, or None when the form may be submitted.
      The length is JavaScript's, in UTF-16 code units. */
  function Validate(f: Form): (r: Option<string>)
    ensures AnyEmpty(f) ==> r == Some(FillAllFields)
    ensures !AnyEmpty(f) && f.password != f.confirmPassword ==> r == Some(PasswordsDiffer)
    ensures !AnyEmpty(f) && f.password == f.confirmPassword && Utf16Length(f.password) < 6 ==> r == Some(PasswordTooShort)
    ensures r.None? <==> !AnyEmpty(f) && f.password == f.confirmPassword && Utf16Length(f.password) >= 6
  {
    if AnyEmpty(f) then Some(FillAllFields)
    else if f.password != f.confirmPassword then Some(PasswordsDiffer)
    else if Utf16Length(f.password) < 6 then Some(PasswordTooShort)
    else None
  }

  /** The outcome of a submit: whether `register` was called and the error shown. */
  datatype Outcome = Outcome(registerCalled: bool, error: string)

  /** `handleSubmit`: clear the error, stop at the first failing check, otherwise call
      `register` and show its message when it fails. */
  function HandleSubmit(f: Form, result: RegisterResult): (r: Outcome)
    ensures r.registerCalled <==> Validate(f).None?
    ensures !r.registerCalled ==> r.error == Validate(f).value
    ensures r.registerCalled && result.success ==> r.error == ""
    ensures r.registerCalled && !result.success ==> r.error == result.message
  {
    match Validate(f)
    case Some(msg) => Outcome(false, msg)
    case None => Outcome(true, if result.success then "" else result.message)
  }

  /** A submit that reaches the service has all four fields, matching passwords and
      a password of six code units or more, so of at least three characters. */
  lemma SubmittedFormIsComplete(f: Form, result: RegisterResult)
    requires HandleSubmit(f, result).registerCalled
    ensures f.username != "" && f.email != "" && f.password == f.confirmPassword
    ensures |f.password| >= 3
  {
  }
}
