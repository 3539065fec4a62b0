/**
 * The login form (src/pages/auth/Login.tsx): the sign-in is simulated, so a submission
 * always succeeds and the dashboard is chosen from the account type alone.
 */
module Login {
  /** The form's fields. */
  datatype Form = Form(email: string, password: string, userType: string)

  /** The form as the page first shows it. */
  function InitialForm(): (f: Form)
    ensures f.userType == "job-seeker" && f.email == "" && f.password == ""
  {
    Form("", "", "job-seeker")
  }

  /** The one notification the form raises. */
  datatype LoginToast = LoggedIn

  /** What a submission does: a notification, then a navigation. */
  datatype LoginOutcome = LoginOutcome(toast: LoginToast, navigation: string)

  /** The dashboard for an account type: the job-seeker's, or the recruiter's for anything else. */
  function DashboardRoute(userType: string): (r: string)
    ensures r == "/dashboard/job-seeker" <==> userType == "job-seeker"
    ensures r == "/dashboard/recruiter" <==> userType != "job-seeker"
  {
    if userType == "job-seeker" then "/dashboard/job-seeker" else "/dashboard/recruiter"
  }

  /** `handleSubmit`: the success notification, then the dashboard of the chosen type. */
  function HandleSubmit(f: Form): (o: LoginOutcome)
    ensures o.toast == LoggedIn
    ensures o.navigation == "/dashboard/job-seeker" || o.navigation == "/dashboard/recruiter"
    ensures o.navigation == "/dashboard/job-seeker" <==> f.userType == "job-seeker"
  {
    LoginOutcome(LoggedIn, DashboardRoute(f.userType))
  }

  /** The route does not depend on the email or the password. */
  lemma RouteIgnoresCredentials(f: Form, g: Form)
    requires f.userType == g.userType
    ensures HandleSubmit(f) == HandleSubmit(g)
  {
  }

  /** Every form whose account type is left at its default leads to the job-seeker's dashboard. */
  lemma DefaultTypeRoute(f: Form)
    requires f.userType == InitialForm().userType
    ensures HandleSubmit(f).navigation == "/dashboard/job-seeker"
  {
  }

  /**
   * For the two account types the forms offer, logging in lands on the dashboard that
   * a successful sign-up with the same type navigates to (`SignUp.HandleSubmit`).
   */
  lemma LoginAgreesWithSignUp(userType: string, g: Form)
    requires g.userType == userType
    requires userType == "job-seeker" || userType == "recruiter"
    ensures HandleSubmit(g).navigation == "/dashboard/" + userType
  {
  }
}
