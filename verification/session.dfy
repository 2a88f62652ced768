/** The session service (`AuthService`): a state machine over the browser's
    string-keyed storage (`auth_token`, `username`, `email`) together with the
    log of booleans its `authState` subject has emitted. Every call is one
    synchronous step; `login` and `register` accept any non-empty arguments
    and never consult the credential store. */
module Session {
  import opened Results
  import opened Text
  import opened Maps
  import UserStore

  const TokenKey := "auth_token"
  const UsernameKey := "username"
  const EmailKey := "email"
  const TokenPrefix := "mock-token-"

  const InvalidCredentials := "Invalid credentials"
  const RegistrationFailed := "Registration failed"
  const RecoverySent := "Recovery email sent"
  const InvalidRecoveryIdentifier := "Invalid username or email"
  const ResetDone := "Password reset successfully"
  const InvalidReset := "Invalid token or password"

  type Storage = map<string, string>

  /** Browser storage as the service sees it, and every value `authState`
      has carried so far, oldest first. */
  datatype AuthService = AuthService(storage: Storage, emissions: seq<bool>)

  /** A call's effect on the service together with what its observable
      delivered: the `next` payload, or the `error` field of the error. */
  datatype Reply<T> = Reply(service: AuthService, result: Result<T, string>)

  /** `localStorage.getItem`: the stored value, `null` for a missing key. */
  function GetItem(storage: Storage, key: string): (r: Option<string>)
    ensures r.Some? <==> key in storage
    ensures r.Some? ==> r.value == storage[key]
  {
    if key in storage then Some(storage[key]) else None
  }

  /** `checkAuthStatus` / `isAuthenticated`: `!!getItem('auth_token')`, that
      is, a token is stored and it is not the empty string. */
  predicate IsAuthenticated(storage: Storage)
    ensures IsAuthenticated(storage) <==> Truthy(GetItem(storage, TokenKey))
  {
    TokenKey in storage && storage[TokenKey] != ""
  }

  /** The last value emitted equals the current authentication status. */
  predicate InSync(s: AuthService)
  {
    |s.emissions| > 0 && s.emissions[|s.emissions| - 1] == IsAuthenticated(s.storage)
  }

  /** Construction: the subject starts with the status read from storage. */
  function Create(storage: Storage): (s: AuthService)
    ensures s.storage == storage
    ensures InSync(s) && |s.emissions| == 1
  {
    AuthService(storage, [IsAuthenticated(storage)])
  }

  /** `'mock-token-' + Date.now()`, with the clock reading as a parameter. */
  function MintToken(now: nat): (t: string)
    ensures |t| > |TokenPrefix| && t[..|TokenPrefix|] == TokenPrefix
    ensures AllDigits(t[|TokenPrefix|..]) && ParseDigits(t[|TokenPrefix|..]) == now
    ensures t[|TokenPrefix|] == '0' ==> t == TokenPrefix + "0"
  {
    var digits := NatToString(now);
    var t := TokenPrefix + digits;
    assert t[|TokenPrefix|..] == digits;
    ParseNatToString(now);
    t
  }

  /** `login`: both arguments non-empty stores a fresh token and the
      username, emits `true` and delivers the token; otherwise fails with
      'Invalid credentials' and touches nothing. */
  function Login(s: AuthService, username: string, password: string, now: nat): (r: Reply<string>)
    ensures r.result.Ok? <==> username != "" && password != ""
    ensures r.result.Ok? ==>
      && r.result.value == MintToken(now)
      && TokenKey in r.service.storage && r.service.storage[TokenKey] == r.result.value
      && UsernameKey in r.service.storage && r.service.storage[UsernameKey] == username
      && AgreeOutside(s.storage, r.service.storage, {TokenKey, UsernameKey})
      && r.service.emissions == s.emissions + [true]
    ensures r.result.Err? ==> r.result.error == InvalidCredentials && r.service == s
  {
    if username != "" && password != "" then
      var token := MintToken(now);
      var storage := s.storage[TokenKey := token][UsernameKey := username];
      Reply(AuthService(storage, s.emissions + [true]), Ok(token))
    else
      Reply(s, Err(InvalidCredentials))
  }

  /** `register`: like `login`, and it also stores the e-mail; any empty
      argument fails with 'Registration failed' and touches nothing. */
  function Register(s: AuthService, username: string, email: string, password: string, now: nat)
    : (r: Reply<string>)
    ensures r.result.Ok? <==> username != "" && email != "" && password != ""
    ensures r.result.Ok? ==>
      && r.result.value == MintToken(now)
      && TokenKey in r.service.storage && r.service.storage[TokenKey] == r.result.value
      && UsernameKey in r.service.storage && r.service.storage[UsernameKey] == username
      && EmailKey in r.service.storage && r.service.storage[EmailKey] == email
      && AgreeOutside(s.storage, r.service.storage, {TokenKey, UsernameKey, EmailKey})
      && r.service.emissions == s.emissions + [true]
    ensures r.result.Err? ==> r.result.error == RegistrationFailed && r.service == s
  {
    if username != "" && email != "" && password != "" then
      var token := MintToken(now);
      var storage := s.storage[TokenKey := token][UsernameKey := username][EmailKey := email];
      Reply(AuthService(storage, s.emissions + [true]), Ok(token))
    else
      Reply(s, Err(RegistrationFailed))
  }

  /** `logout`: removes the three session keys, keeps every other key, and
      emits `false`. */
  function Logout(s: AuthService): (r: AuthService)
    ensures TokenKey !in r.storage && UsernameKey !in r.storage && EmailKey !in r.storage
    ensures AgreeOutside(s.storage, r.storage, {TokenKey, UsernameKey, EmailKey})
    ensures r.emissions == s.emissions + [false]
  {
    AuthService(s.storage - {TokenKey, UsernameKey, EmailKey}, s.emissions + [false])
  }

  /** `getUsername`: the stored username, `null` when none is stored. */
  function GetUsername(s: AuthService): (r: Option<string>)
    ensures r.Some? <==> UsernameKey in s.storage
    ensures r.Some? ==> r.value == s.storage[UsernameKey]
  {
    GetItem(s.storage, UsernameKey)
  }

  /** `requestPasswordRecovery`: any non-empty identifier succeeds; nothing
      is looked up and no state is involved. */
  function RequestPasswordRecovery(usernameOrEmail: string): (r: Result<string, string>)
    ensures r.Ok? <==> usernameOrEmail != ""
    ensures r.Ok? ==> r.value == RecoverySent
    ensures r.Err? ==> r.error == InvalidRecoveryIdentifier
  {
    if usernameOrEmail != "" then Ok(RecoverySent) else Err(InvalidRecoveryIdentifier)
  }

  /** `resetPassword`: succeeds exactly when token and new password are both
      non-empty; no password is stored anywhere and no state is involved. */
  function ResetPassword(token: string, newPassword: string): (r: Result<string, string>)
    ensures r.Ok? <==> token != "" && newPassword != ""
    ensures r.Ok? ==> r.value == ResetDone
    ensures r.Err? ==> r.error == InvalidReset
  {
    if token != "" && newPassword != "" then Ok(ResetDone) else Err(InvalidReset)
  }

  // ---------------------------------------------------------------------
  // Properties relating several operations

  /** Recovery looks nothing up: an identifier no account in the credential
      store has, as username or as e-mail, is answered with success all the
      same. */
  lemma RecoveryIgnoresStore(db: UserStore.Store, usernameOrEmail: string)
    requires usernameOrEmail != ""
    requires !UserStore.UserExists(db.users, usernameOrEmail, usernameOrEmail)
    ensures RequestPasswordRecovery(usernameOrEmail) == Ok(RecoverySent)
  {
  }

  /** A successful sign-in leaves the service authenticated, the e-mail key
      as it was, and `getUsername` reporting the name just used. */
  lemma LoginAuthenticates(s: AuthService, username: string, password: string, now: nat)
    requires username != "" && password != ""
    ensures IsAuthenticated(Login(s, username, password, now).service.storage)
    ensures GetUsername(Login(s, username, password, now).service) == Some(username)
    ensures var s' := Login(s, username, password, now).service;
      (EmailKey in s'.storage <==> EmailKey in s.storage) &&
      (EmailKey in s.storage ==> s'.storage[EmailKey] == s.storage[EmailKey])
  {
    var t := MintToken(now);
    assert t != "";
  }

  /** A successful registration leaves the service authenticated with the
      given username and e-mail stored. */
  lemma RegisterAuthenticates(s: AuthService, username: string, email: string, password: string, now: nat)
    requires username != "" && email != "" && password != ""
    ensures IsAuthenticated(Register(s, username, email, password, now).service.storage)
    ensures GetUsername(Register(s, username, email, password, now).service) == Some(username)
  {
    var t := MintToken(now);
    assert t != "";
  }

  /** After `logout` the service is not authenticated and has no username;
      a second `logout` leaves the storage as the first one left it and only
      emits `false` once more. */
  lemma LogoutIdempotent(s: AuthService)
    ensures !IsAuthenticated(Logout(s).storage) && GetUsername(Logout(s)).None?
    ensures Logout(Logout(s)).storage == Logout(s).storage
    ensures Logout(Logout(s)).emissions == s.emissions + [false, false]
  {
  }

  /** Every emission equals the authentication status right after the step
      that produced it: each operation keeps the log in sync with storage. */
  lemma EveryStepKeepsEmissionsInSync(s: AuthService, username: string, email: string, password: string, now: nat)
    requires InSync(s)
    ensures InSync(Login(s, username, password, now).service)
    ensures InSync(Register(s, username, email, password, now).service)
    ensures InSync(Logout(s))
  {
    var t := MintToken(now);
    assert t != "";
  }
}
