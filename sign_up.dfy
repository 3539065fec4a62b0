/**
 * The sign-up form (src/pages/auth/SignUp.tsx): two checks on the form, then the
 * account creation, the `user_roles` insert and the redirect to the new user's dashboard.
 */
module SignUp {
  import opened Wrappers
  import opened Auth

  /** The form's fields. */
  datatype Form = Form(email: string, password: string, confirmPassword: string,
                       userType: string, acceptTerms: bool)

  /** The form as the page first shows it. */
  function InitialForm(): (f: Form)
    ensures f.userType == "job-seeker" && !f.acceptTerms
    ensures f.email == "" && f.password == "" && f.confirmPassword == ""
  {
    Form("", "", "", "job-seeker", false)
  }

  /** The two errors found before anything is sent. */
  datatype FormError = PasswordMismatch | TermsNotAccepted

  /** The checks, in order: the password confirmation first, then the terms box. */
  function Validate(f: Form): (r: Option<FormError>)
    ensures r == Some(PasswordMismatch) <==> f.password != f.confirmPassword
    ensures r == Some(TermsNotAccepted) <==> f.password == f.confirmPassword && !f.acceptTerms
    ensures r == None <==> f.password == f.confirmPassword && f.acceptTerms
  {
    if f.password != f.confirmPassword then Some(PasswordMismatch)
    else if !f.acceptTerms then Some(TermsNotAccepted)
    else None
  }

  /** The result of `auth.signUp`: an error, or data whose `user` may be `null`. */
  datatype SignUpReply = SignUpFailed | SignedUp(user: Option<User>)

  /** What is sent to `auth.signUp`. */
  datatype Credentials = Credentials(email: string, password: string)

  /** A row inserted into `user_roles`. */
  datatype RoleRow = RoleRow(userId: string, role: string)

  /** The notifications the form raises. */
  datatype SignUpToast = Rejected(error: FormError) | Registered | RegistrationFailed

  /** Everything one submission does, in the order it can happen. */
  datatype Submission = Submission(signUpRequest: Option<Credentials>, roleInsert: Option<RoleRow>,
                                   toast: Option<SignUpToast>, navigation: Option<string>)

  /**
   * `handleSubmit`. `signUpReply` is the answer to `auth.signUp`, `insertReply` that of
   * the `user_roles` insert; each is only used when its request is made. An error in
   * either request ends in the generic error notification.
   */
  method HandleSubmit(form: Form, signUpReply: SignUpReply, insertReply: Outcome) returns (s: Submission)
    ensures Validate(form).Some? ==> s == Submission(None, None, Some(Rejected(Validate(form).value)), None)
    ensures Validate(form).None? ==> s.signUpRequest == Some(Credentials(form.email, form.password))
    ensures s.roleInsert.Some? <==> Validate(form).None? && signUpReply.SignedUp? && signUpReply.user.Some?
    ensures s.roleInsert.Some? ==> s.roleInsert.value == RoleRow(signUpReply.user.value.id, form.userType)
    ensures s.navigation.Some? <==> s.roleInsert.Some? && insertReply == Success
    ensures s.navigation.Some? ==> s.navigation.value == "/dashboard/" + form.userType && s.toast == Some(Registered)
    ensures s.toast == Some(RegistrationFailed) <==>
              Validate(form).None? && (signUpReply.SignUpFailed? || (s.roleInsert.Some? && insertReply == Failure))
    ensures Validate(form).None? && signUpReply == SignedUp(None) ==>
              s.roleInsert == None && s.toast == None && s.navigation == None
  {
    var invalid := Validate(form);
    if invalid.Some? {
      return Submission(None, None, Some(Rejected(invalid.value)), None);
    }
    var request := Credentials(form.email, form.password);
    if signUpReply.SignUpFailed? {
      return Submission(Some(request), None, Some(RegistrationFailed), None);
    }
    if signUpReply.user.None? {
      return Submission(Some(request), None, None, None);
    }
    var row := RoleRow(signUpReply.user.value.id, form.userType);
    if insertReply == Failure {
      return Submission(Some(request), Some(row), Some(RegistrationFailed), None);
    }
    s := Submission(Some(request), Some(row), Some(Registered), Some("/dashboard/" + form.userType));
  }

  /** With both checks failing, only the password mismatch is reported. */
  lemma MismatchReportedFirst(f: Form)
    requires f.password != f.confirmPassword && !f.acceptTerms
    ensures Validate(f) == Some(PasswordMismatch)
  {
  }

  /** Every form with matching passwords whose terms box is left at its default is rejected for the terms. */
  lemma DefaultTermsRejected(f: Form)
    requires f.password == f.confirmPassword
    requires f.acceptTerms == InitialForm().acceptTerms
    ensures Validate(f) == Some(TermsNotAccepted)
  {
  }
}
