# Angular authentication front end: a Dafny model

This project models the parts of the front end that hold state or make decisions:

- **Credential store** (`MockUserDatabaseService`). An ordered list of user records, mirrored into the browser key `mock_users_db`. Registration checks its inputs in a fixed order, refuses case-insensitive duplicates, and appends one record. Credential lookup is case-insensitive on the username and exact on the password. A store that loads nothing usable is seeded with the `testuser` account.
- **Session service** (`AuthService`). A state machine over the string-keyed browser storage (`auth_token`, `username`, `email`). It also keeps the log of booleans its `authState` subject has emitted. `login` and `register` accept any non-empty arguments and never consult the credential store; the model keeps that.
- **Authentication interceptor** (`AuthInterceptor`). It attaches `Authorization: Bearer <token>`, then a default `Content-Type`. It classifies failed responses by status: 401 signs the user out and navigates to `/login`.
- **Error interceptor** (`ErrorInterceptor`). It picks a user-facing message by priority: client-side event, then body `message`, then body `error`, then a status table, then a default. It always rethrows `{error, status, originalError}`.
- **Form helpers** shared by the registration and password-reset pages:
  - the 0-4 password strength score;
  - its label and CSS class;
  - the password/confirmation validator;
  - the guards in front of each page's submit handler;
  - the reset page's token check.

Everything is written as pure functions over immutable values; one method computes the password score with a loop. A service call is one synchronous step that returns the new state, its result and its side effects. Clock readings (`Date.now()`, `new Date()`) are parameters named `now`.

Module layout:

| module | file | models |
|---|---|---|
| `Results` | results.dfy | `Option`, `Result`, the first-match search behind `find`/`some` |
| `Text` | text.dfy | ASCII `toLowerCase`, `trim`, `\s`, `length` in UTF-16 code units, truthiness, decimal rendering of numbers |
| `Maps` | maps.dfy | the "every other key unchanged" frame condition on storage and headers |
| `Email` | email.dfy | the e-mail regular expression |
| `UserStore` | user_store.dfy | `MockUserDatabaseService` |
| `Session` | session.dfy | `AuthService` |
| `Http` | http.dfy | request and failed-response shapes |
| `AuthInterceptor` | auth_interceptor.dfy | `AuthInterceptor` |
| `ErrorInterceptor` | error_interceptor.dfy | `ErrorInterceptor` |
| `PasswordForm` | password_form.dfy | the helpers both form components carry |
| `RegisterComponent` | register_component.dfy | `RegisterComponent.onSubmit` |
| `PasswordResetComponent` | password_reset_component.dfy | `PasswordResetComponent.ngOnInit` and `onSubmit` |

The password-reset page repeats the registration page's helpers word for word:
- `passwordMatchValidator` at frontend/src/app/components/password-reset/password-reset.component.ts:50-59;
- `calculatePasswordStrength` at lines 64-77;
- the strength text and class lookups at lines 84-92.

`PasswordForm` models them once, so every property stated for the registration copy holds for the reset copy too.

Behaviour of the code worth noting:
- `AuthService.login`/`register` do not delegate to the credential store.
- `resetPassword` only checks that both arguments are non-empty; it has no length-6 rule.
- Tokens are `'mock-token-' + Date.now()`. Two logins in the same millisecond get the same token, so no uniqueness is claimed.
- The session keys are `auth_token`, `username` and `email`; there is no `auth_user` record.
- The error interceptor has fixed messages only for 500 and 503. Any other 5xx status gets the generic `Error <status>: <statusText>`. The authentication interceptor does replace every status of 500 or more.

## Model

| member | source | states |
|---|---|---|
| `Results.FindFirst` | frontend/src/app/services/mock-user-database.service.ts:109-111 | the index found satisfies the predicate and no earlier element does; nothing is found exactly when no element satisfies it |
| `Text.Trim` | frontend/src/app/services/mock-user-database.service.ts:76 | the trimmed username is the input with a whitespace-only prefix and suffix cut away; it is empty exactly for an all-blank input, and otherwise starts and ends with a non-blank |
| `Text.ToLower` | frontend/src/app/services/mock-user-database.service.ts:95-96 | `toLowerCase` on ASCII: same length, every capital A-Z folded to its small letter, every other character kept |
| `Text.Utf16Length` | frontend/src/app/services/mock-user-database.service.ts:84 | JavaScript's `length`: UTF-16 code units, never fewer than the characters and at most twice as many; equal to the character count when every character lies in the Basic Multilingual Plane, twice it when none does |
| `Text.Utf16LengthConcat` | frontend/src/app/services/mock-user-database.service.ts:84 | the length of a concatenation is the sum of the lengths, so every character contributes its own code units |
| `Text.NatToString` | frontend/src/app/services/auth.service.ts:35 | decimal rendering of a non-negative integer, as JavaScript's string conversion gives it: non-empty, digits only, and no leading zero except for "0" itself |
| `Text.ParseNatToString` | frontend/src/app/interceptors/error.interceptor.ts:59 | reading back the decimal rendering of a status or clock value gives the number |
| `Email.IsValidEmail` | frontend/src/app/services/mock-user-database.service.ts:134-137 | accepts a string exactly when an '@' and a later '.' split it into three non-empty runs of `[^\s@]` characters, as `^[^\s@]+@[^\s@]+\.[^\s@]+$` demands |
| `Email.ValidEmailShape` | frontend/src/app/services/mock-user-database.service.ts:135 | an accepted address has no whitespace and exactly one '@', which is not its first character |
| `UserStore.Create` | frontend/src/app/services/mock-user-database.service.ts:21-57 | after construction the persisted snapshot mirrors the list; a non-empty load is kept as loaded; an empty, missing or corrupt load leaves exactly the test account |
| `UserStore.EmptyLoadSeedsTestUser` | frontend/src/app/services/mock-user-database.service.ts:32-42 | a store that loaded nothing usable holds only `testuser`, and `testuser`/`password123` signs in |
| `UserStore.SeededStoreIsUnique` | frontend/src/app/services/mock-user-database.service.ts:33-40 | the seeded store satisfies the uniqueness invariant, and so does the store after any sequence of registrations run against it |
| `UserStore.RegisterAllPreservesUnique` | frontend/src/app/services/mock-user-database.service.ts:88-99 | from a store without case-insensitive duplicates, any sequence of registrations, refused or not, leaves none |
| `UserStore.CheckInput` | frontend/src/app/services/mock-user-database.service.ts:76-86 | the first failing check wins: username shorter than 3 UTF-16 code units after trimming, then invalid e-mail, then password shorter than 6 code units; each error is reported exactly when the earlier checks pass and its own fails |
| `UserStore.AstralPasswordAccepted` | frontend/src/app/services/mock-user-database.service.ts:84 | a password of three characters outside the Basic Multilingual Plane is six code units long and passes the length check |
| `UserStore.UserExists` | frontend/src/app/services/mock-user-database.service.ts:125-129 | true exactly when some record matches the username or the e-mail up to case |
| `UserStore.RegisterUser` | frontend/src/app/services/mock-user-database.service.ts:74-103 | an input error or a conflict leaves list and snapshot unchanged; success happens exactly when inputs pass and nothing conflicts, and appends one record (folded username and e-mail, password verbatim) after the untouched earlier records, then persists the list |
| `UserStore.Reply` | frontend/src/app/services/mock-user-database.service.ts:74-103 | the returned object has `success` exactly for a registration, carries no `error` then, and otherwise carries the refusing check's message |
| `UserStore.MessagesIdentifyReason` | frontend/src/app/services/mock-user-database.service.ts:77-90 | the four refusal messages are pairwise different, so the message names the check that refused |
| `UserStore.RegisterPreservesUnique` | frontend/src/app/services/mock-user-database.service.ts:89-99 | registration keeps every case-folded username and every case-folded e-mail distinct |
| `UserStore.RegisterThenValidate` | frontend/src/app/services/mock-user-database.service.ts:94-116 | after a successful registration, signing in with any case variant of the username and the same password returns exactly the new record without its password |
| `UserStore.RegisterTwiceConflicts` | frontend/src/app/services/mock-user-database.service.ts:89-91 | registering an already registered username or e-mail, in any case, with otherwise acceptable inputs is refused as 'already registered' |
| `UserStore.ValidateCredentials` | frontend/src/app/services/mock-user-database.service.ts:108-120 | nothing is returned exactly when no record matches username (up to case) and password (exactly); otherwise the first matching record, without its password |
| `UserStore.WrongPasswordRefused` | frontend/src/app/services/mock-user-database.service.ts:109-119 | a password that no record with that username holds is refused |
| `UserStore.GetUserByUsername` | frontend/src/app/services/mock-user-database.service.ts:142-149 | the first record whose username matches up to case, without its password; nothing when none does |
| `UserStore.GetAllUsers` | frontend/src/app/services/mock-user-database.service.ts:162-167 | every record in order, with username, e-mail and creation time kept and the password dropped |
| `UserStore.RegisterExtendsAllUsers` | frontend/src/app/services/mock-user-database.service.ts:94-99 | a successful registration extends `getAllUsers` by exactly the new record's view: folded username, folded e-mail, creation time |
| `UserStore.ClearAllUsers` | frontend/src/app/services/mock-user-database.service.ts:154-157 | afterwards no credentials validate, `getAllUsers` is empty and the persisted key is gone |
| `UserStore.AliceScenario` | frontend/src/app/services/mock-user-database.service.ts:74-120 | on an empty store: 'alice' registers, 'ALICE' signs in, a wrong password is refused, and re-registering 'alice' with another e-mail is a conflict |
| `Session.GetItem` | frontend/src/app/services/auth.service.ts:17 | `getItem`: the stored value, and nothing exactly when the key is absent |
| `Session.IsAuthenticated` | frontend/src/app/services/auth.service.ts:16-26 | `!!getItem('auth_token')`: true exactly when a token is stored and it is not the empty string |
| `Session.Create` | frontend/src/app/services/auth.service.ts:8 | the subject's initial value is the authentication status read from storage |
| `Session.MintToken` | frontend/src/app/services/auth.service.ts:35 | the token is `mock-token-` followed by the shortest decimal numeral of the clock reading (no leading zero except for 0 itself), which reads back as that reading |
| `Session.Login` | frontend/src/app/services/auth.service.ts:31-44 | succeeds exactly for two non-empty arguments; then stores the token and the username, keeps every other key, emits `true` and returns the stored token; otherwise fails with 'Invalid credentials' and changes nothing |
| `Session.Register` | frontend/src/app/services/auth.service.ts:50-64 | succeeds exactly for three non-empty arguments; then also stores the e-mail; otherwise fails with 'Registration failed' and changes nothing |
| `Session.Logout` | frontend/src/app/services/auth.service.ts:70-75 | the three session keys are gone, every other key is kept, and `false` is emitted |
| `Session.GetUsername` | frontend/src/app/services/auth.service.ts:80-82 | the stored username, or nothing when none is stored |
| `Session.RequestPasswordRecovery` | frontend/src/app/services/auth.service.ts:87-96 | succeeds exactly for a non-empty identifier, with a fixed message; no state is involved |
| `Session.ResetPassword` | frontend/src/app/services/auth.service.ts:101-110 | succeeds exactly when token and new password are non-empty; no state is involved |
| `Session.RecoveryIgnoresStore` | frontend/src/app/services/auth.service.ts:87-96 | recovery succeeds for a non-empty identifier that names no account in the credential store: nothing is looked up |
| `Session.LoginAuthenticates` | frontend/src/app/services/auth.service.ts:34-39 | after a successful login the service is authenticated, `getUsername` returns the name used, and the e-mail key is untouched |
| `Session.RegisterAuthenticates` | frontend/src/app/services/auth.service.ts:53-59 | after a successful registration the service is authenticated and `getUsername` returns the name used |
| `Session.LogoutIdempotent` | frontend/src/app/services/auth.service.ts:70-75 | after logout the service is unauthenticated with no username; a second logout leaves the same storage and only emits `false` again |
| `Session.EveryStepKeepsEmissionsInSync` | frontend/src/app/services/auth.service.ts:8-75 | if the last emission equals the authentication status, it still does after login, register or logout |
| `AuthInterceptor.AttachToken` | frontend/src/app/interceptors/auth.interceptor.ts:27-36 | a truthy token sets `Authorization` to `Bearer <token>` and changes no other header; otherwise the request is unchanged |
| `AuthInterceptor.DefaultContentType` | frontend/src/app/interceptors/auth.interceptor.ts:38-45 | an existing `Content-Type` leaves the request unchanged; otherwise `application/json` is added and nothing else changes |
| `AuthInterceptor.PrepareRequest` | frontend/src/app/interceptors/auth.interceptor.ts:25-45 | the outgoing request always has a content type (the original one if present); `Authorization` is the bearer token when one is given and otherwise as before; no other header changes |
| `AuthInterceptor.OnError` | frontend/src/app/interceptors/auth.interceptor.ts:47-80 | 401 signs out, navigates to `/login` and rethrows the session-expired record; 403 and statuses of 500 or more rethrow their message with no side effect; any other failure is rethrown unchanged |
| `AuthInterceptor.HandleErrorEffects` | frontend/src/app/interceptors/auth.interceptor.ts:50-59 | on 401 the session service ends signed out with `false` as its latest emission and `/login` as the only navigation; every other status leaves the service alone; sign-out happens only on 401 |
| `ErrorInterceptor.StatusMessage` | frontend/src/app/interceptors/error.interceptor.ts:36-60 | the seven listed statuses give their fixed text; every other status gives `Error <status>: <statusText>` |
| `ErrorInterceptor.SelectMessage` | frontend/src/app/interceptors/error.interceptor.ts:23-61 | priority: client event message, then non-empty body `message`, then non-empty body `error`, then the status table for a non-zero status, else the default message |
| `ErrorInterceptor.Intercept` | frontend/src/app/interceptors/error.interceptor.ts:66-70 | the rethrown record carries the selected message, the original status and the original failure |
| `ErrorInterceptor.ServerSideMessageNonEmpty` | frontend/src/app/interceptors/error.interceptor.ts:29-61 | outside a client-side event the message shown is never empty |
| `ErrorInterceptor.GenericMessageIdentifiesStatus` | frontend/src/app/interceptors/error.interceptor.ts:59 | two equal generic messages come from the same status |
| `PasswordForm.CalculatePasswordStrength` | frontend/src/app/components/register/register.component.ts:55-68 | the score is the number of criteria met (at least 8 UTF-16 code units, both cases, a digit, a special character); 0 for an empty password, never above 4 |
| `PasswordForm.AstralPasswordEarnsLengthPoint` | frontend/src/app/components/register/register.component.ts:62-65 | four characters outside the Basic Multilingual Plane score exactly 1: the length point, as eight code units, and no class point |
| `PasswordForm.StrengthText` | frontend/src/app/components/register/register.component.ts:75-78 | scores 0-4 give 'Weak', 'Fair', 'Good', 'Strong', 'Very Strong'; anything else gives 'Weak' |
| `PasswordForm.StrengthClass` | frontend/src/app/components/register/register.component.ts:80-83 | scores 0-4 give the five `strength-*` classes; anything else gives `strength-weak` |
| `PasswordForm.ClassMatchesText` | frontend/src/app/components/password-reset/password-reset.component.ts:84-92 | for every score the class is `strength-` followed by the label in lower case with blanks as hyphens |
| `PasswordForm.PasswordMatchValidator` | frontend/src/app/components/register/register.component.ts:41-50 | reports `passwordMismatch` (and marks the confirmation control) exactly when both controls exist and their values differ |
| `RegisterComponent.OnSubmit` | frontend/src/app/components/register/register.component.ts:85-109 | an invalid form calls nothing and changes no service state; a valid one calls `register`, navigates to `/hello` exactly when it succeeds, and shows 'Registration failed' otherwise |
| `RegisterComponent.MismatchBlocksRegister` | frontend/src/app/components/register/register.component.ts:41-97 | with the group validator folded into form validity, `register` is called exactly when the controls are valid and password and confirmation agree; a reported mismatch leaves the service and the route untouched |
| `RegisterComponent.ValidSubmitSignsIn` | frontend/src/app/components/register/register.component.ts:97-103 | a valid, fully filled form leaves the user signed in under the typed name and on `/hello` |
| `PasswordResetComponent.OnInit` | frontend/src/app/components/password-reset/password-reset.component.ts:36-41 | the token is kept from the route; the flag is raised when the token is missing or empty, and a raised flag stays raised |
| `PasswordResetComponent.InitFlagsMissingToken` | frontend/src/app/components/password-reset/password-reset.component.ts:37-40 | on a fresh page `invalidToken` is true exactly when the route's token is missing or empty |
| `PasswordResetComponent.OnSubmit` | frontend/src/app/components/password-reset/password-reset.component.ts:94-122 | nothing is sent when the form is invalid or the token is missing or empty; otherwise `resetPassword` is called; success shows its message and schedules `/login` after 2000 ms; failure shows its error |
| `PasswordResetComponent.RedirectExactlyOnReset` | frontend/src/app/components/password-reset/password-reset.component.ts:106-120 | once the request is sent, the `/login` redirect is scheduled exactly when `resetPassword` succeeds, and its error is shown exactly when it fails |
| `PasswordResetComponent.MismatchBlocksReset` | frontend/src/app/components/password-reset/password-reset.component.ts:50-106 | `resetPassword` is called exactly when the controls are valid, password and confirmation agree and the route gave a token; a reported mismatch schedules no redirect |
| `PasswordResetComponent.MissingTokenNeverResets` | frontend/src/app/components/password-reset/password-reset.component.ts:99-101 | a page whose route had no usable token flags it and never calls `resetPassword` |

## Left out

- Browser storage I/O, `JSON.parse`/`JSON.stringify` and `console.error`. Storage is a `map<string, string>`, and the user list is a sequence with a persisted snapshot. The credential store's `saveUsers` catches and ignores a failed `setItem`, so its saves always succeed here. A load is one of: missing, parsed, or rejected by `JSON.parse`.
- Session: the session service's `setItem` calls in `login` and `register` are assumed never to throw. They have no guard in the source. A failure after the token is written would leave `authState` unsent, and the register page would show its fallback message; the model never reaches that state.
- Loaded records are taken as they are. The source does not check them, so a loaded store need not satisfy the uniqueness invariant. `JSON.parse` yielding something other than an array is not modelled. After a reload `createdAt` becomes a string; the model keeps the number.
- RxJS. Every `Observable` the session service returns is treated as subscribed exactly once, synchronously. A second subscription would run the body again with a new clock reading. `BehaviorSubject` replay to late subscribers is represented only by the emission log.
- `Date.now()` and `new Date()` are parameters. Token uniqueness is not claimed.
- `AuthService.getToken()` is called by the authentication interceptor but does not exist in the session service. The token is therefore a parameter of `AuthInterceptor.PrepareRequest`.
- Angular's `HttpHeaders` matches header names case-insensitively. The model uses exact keys.
- `toLowerCase`, `trim` and `\s` are restricted to ASCII. Unicode case mappings and Unicode blanks (U+00A0, U+FEFF, ...) are not modelled. String lengths are counted in UTF-16 code units, as JavaScript counts them. A string is a sequence of Unicode scalar values, so lone surrogates cannot occur.
- `ErrorInterceptor.SelectMessage`: body `message`/`error` fields that are not strings (numbers, objects) are not modelled. A failure without a `status` field is folded into status 0. Both take the same branch, but the rethrown record would carry `undefined` rather than 0.
- Angular's form validators (`Validators.required`, `minLength`, `email`) are library code. Form validity is an input flag of each `onSubmit`.
- `PasswordForm.PasswordMatchValidator` reports whether the confirmation control gets marked. It does not model Angular later clearing or keeping that control's errors.
- The two interceptors are modelled separately. The application configuration that chains them is not part of this model.
- Router navigation is recorded as route strings. The 2000 ms `setTimeout` redirect is recorded as a scheduled navigation.
- The login, password-recovery and hello pages, `onPasswordChange`, `goBack` and the `f` getters only wire forms to services and navigation.
- The route table is route configuration. The access guards it names (`auth.guard`, `login.guard`) are not part of this model, so no access decision is modelled.
