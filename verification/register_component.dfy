/** The registration page (`RegisterComponent`): its submit handler, which
    refuses to call the session service while the form is invalid. Form
    validity comes from Angular's validators and is an input here. */
module RegisterComponent {
  import opened Results
  import Session
  import PasswordForm

  const HomeRoute := "/hello"
  const FallbackError := "Registration failed. Please try again."

  datatype RegisterPage = RegisterPage(loading: bool, submitted: bool, error: Option<string>)

  /** The page after a submit, the session service after it, whether
      `register` was called, and where the router was sent, if anywhere. */
  datatype Submitted = Submitted(page: RegisterPage, service: Session.AuthService, called: bool, navigation: Option<string>)

  /** `onSubmit`: an invalid form only marks the page submitted; a valid
      one calls `register` and, on success, navigates to `/hello`, and on
      failure shows the service's error. */
  function OnSubmit(page: RegisterPage, formValid: bool, username: string, email: string, password: string,
                    svc: Session.AuthService, now: nat): (r: Submitted)
    ensures r.page.submitted
    ensures r.called ==> !r.page.loading
    ensures !formValid ==> r == Submitted(page.(submitted := true, error := None), svc, false, None)
    ensures formValid ==> r.called && r.service == Session.Register(svc, username, email, password, now).service
    ensures r.navigation == Some(HomeRoute) <==> formValid && username != "" && email != "" && password != ""
    ensures r.page.error.Some? <==> formValid && (username == "" || email == "" || password == "")
    ensures r.page.error.Some? ==> r.page.error.value == Session.RegistrationFailed
  {
    var page := page.(submitted := true, error := None);
    if !formValid then Submitted(page, svc, false, None)
    else
      var reply := Session.Register(svc, username, email, password, now);
      match reply.result
      case Ok(_) => Submitted(page.(loading := false), reply.service, true, Some(HomeRoute))
      case Err(e) =>
        var shown := if e != "" then e else FallbackError;
        Submitted(page.(loading := false, error := Some(shown)), reply.service, true, None)
  }

  /** With the group validator in place, `register` is called exactly when
      the controls are valid and the two password fields agree: a reported
      mismatch keeps the service untouched. */
  lemma MismatchBlocksRegister(page: RegisterPage, controlsValid: bool, username: string, email: string,
                               password: string, confirmPassword: string, svc: Session.AuthService, now: nat)
    ensures var check := PasswordForm.PasswordMatchValidator(Some(password), Some(confirmPassword));
      var r := OnSubmit(page, PasswordForm.FormValid(controlsValid, check), username, email, password, svc, now);
      (r.called <==> controlsValid && password == confirmPassword) &&
      (check.groupError.Some? ==> r.service == svc && r.navigation.None?)
  {
  }

  /** Submitting a valid form with every field filled in leaves the user
      signed in, under the name typed, on the home page. */
  lemma ValidSubmitSignsIn(page: RegisterPage, username: string, email: string, password: string,
                           svc: Session.AuthService, now: nat)
    requires username != "" && email != "" && password != ""
    ensures var r := OnSubmit(page, true, username, email, password, svc, now);
      Session.IsAuthenticated(r.service.storage) && Session.GetUsername(r.service) == Some(username) &&
      r.navigation == Some(HomeRoute) && r.page.error.None?
  {
  }
}
