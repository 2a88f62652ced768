/** The password-reset page (`PasswordResetComponent`): it takes the reset
    token from the route, flags a missing one, and refuses to call the
    session service while the form is invalid or the token is missing. */
module PasswordResetComponent {
  import opened Results
  import opened Text
  import Session
  import PasswordForm

  const LoginRoute := "/login"
  const RedirectDelayMs := 2000
  const FallbackSuccess := "Password reset successfully. Redirecting to login..."
  const FallbackError := "Password reset failed. Please try again."

  datatype ResetPage = ResetPage(
    token: Option<string>,
    invalidToken: bool,
    loading: bool,
    submitted: bool,
    error: Option<string>,
    successMessage: Option<string>)

  /** The page as constructed, before `ngOnInit`. */
  const Initial := ResetPage(None, false, false, false, None, None)

  /** `ngOnInit`: keep the route's `token` parameter and raise the flag when
      it is missing or empty; an already raised flag stays raised. */
  function OnInit(page: ResetPage, routeToken: Option<string>): (r: ResetPage)
    ensures r.token == routeToken
    ensures r.invalidToken <==> page.invalidToken || !Truthy(routeToken)
    ensures r == page.(token := r.token, invalidToken := r.invalidToken)
  {
    page.(token := routeToken, invalidToken := page.invalidToken || !Truthy(routeToken))
  }

  /** On a freshly built page the flag is raised exactly when the route has
      no usable token. */
  lemma InitFlagsMissingToken(routeToken: Option<string>)
    ensures OnInit(Initial, routeToken).invalidToken <==> routeToken.None? || routeToken.value == ""
  {
  }

  /** A navigation scheduled with `setTimeout`. */
  datatype Scheduled = Scheduled(route: string, delayMs: nat)

  datatype Submitted = Submitted(page: ResetPage, called: bool, redirect: Option<Scheduled>)

  /** `onSubmit`: nothing is sent while the form is invalid or the token is
      missing or empty; otherwise `resetPassword` is called, success shows
      its message and schedules the move to `/login`, failure shows its
      error. */
  function OnSubmit(page: ResetPage, formValid: bool, password: string): (r: Submitted)
    ensures r.page.submitted
    ensures r.called ==> !r.page.loading
    ensures !formValid || !Truthy(page.token) ==>
      r == Submitted(page.(submitted := true, error := None, successMessage := None), false, None)
    ensures r.called <==> formValid && Truthy(page.token)
    ensures r.redirect.Some? <==> r.called && password != ""
    ensures r.redirect.Some? ==>
      r.redirect.value == Scheduled(LoginRoute, RedirectDelayMs) &&
      r.page.successMessage == Some(Session.ResetDone) && r.page.error.None?
    ensures r.called && password == "" ==>
      r.page.error == Some(Session.InvalidReset) && r.page.successMessage.None?
    ensures r.page.token == page.token && r.page.invalidToken == page.invalidToken
  {
    var page := page.(submitted := true, error := None, successMessage := None);
    if !formValid || !Truthy(page.token) then Submitted(page, false, None)
    else
      match Session.ResetPassword(page.token.value, password)
      case Ok(message) =>
        var shown := if message != "" then message else FallbackSuccess;
        Submitted(page.(loading := false, successMessage := Some(shown)), true,
                  Some(Scheduled(LoginRoute, RedirectDelayMs)))
      case Err(e) =>
        var shown := if e != "" then e else FallbackError;
        Submitted(page.(loading := false, error := Some(shown)), true, None)
  }

  /** Once the request is sent, the redirect to `/login` is scheduled
      exactly when `resetPassword` succeeds, and its error is shown exactly
      when it fails. */
  lemma RedirectExactlyOnReset(page: ResetPage, password: string)
    requires Truthy(page.token)
    ensures var r := OnSubmit(page, true, password);
      var reply := Session.ResetPassword(page.token.value, password);
      && r.called
      && (r.redirect.Some? <==> reply.Ok?)
      && (r.page.error.Some? <==> reply.Err?)
      && (reply.Err? ==> r.page.error == Some(reply.error))
  {
  }

  /** With the group validator in place, `resetPassword` is called exactly
      when the controls are valid, the two password fields agree and the
      route gave a token: a reported mismatch sends nothing. */
  lemma MismatchBlocksReset(page: ResetPage, controlsValid: bool, password: string, confirmPassword: string)
    ensures var check := PasswordForm.PasswordMatchValidator(Some(password), Some(confirmPassword));
      var r := OnSubmit(page, PasswordForm.FormValid(controlsValid, check), password);
      (r.called <==> controlsValid && password == confirmPassword && Truthy(page.token)) &&
      (check.groupError.Some? ==> r.redirect.None?)
  {
  }

  /** A page whose route carried no token never calls `resetPassword`,
      whatever the form holds. */
  lemma MissingTokenNeverResets(routeToken: Option<string>, formValid: bool, password: string)
    requires !Truthy(routeToken)
    ensures !OnSubmit(OnInit(Initial, routeToken), formValid, password).called
    ensures OnInit(Initial, routeToken).invalidToken
  {
  }
}
