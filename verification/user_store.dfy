/** The credential store (`MockUserDatabaseService`): an ordered list of user
    records mirrored into the browser key `mock_users_db`, with ordered input
    validation, case-insensitive uniqueness and a credential lookup. */
module UserStore {
  import opened Results
  import opened Text
  import opened Email

  datatype User = User(username: string, email: string, password: string, createdAt: nat)

  /** A user record with the password left out (`Omit<MockUser, 'password'>`). */
  datatype UserView = UserView(username: string, email: string, createdAt: nat)

  function Public(u: User): UserView
  {
    UserView(u.username, u.email, u.createdAt)
  }

  /** The in-memory list and the snapshot persisted under `mock_users_db`
      (`None` when that key is absent). */
  datatype Store = Store(users: seq<User>, saved: Option<seq<User>>)

  /** What reading `mock_users_db` at start-up produced: nothing (key missing
      or empty string), a parsed list, or a value `JSON.parse` rejected. */
  datatype Stored = Absent | Parsed(records: seq<User>) | Corrupt

  /** Why a registration was refused, in the order the checks run. */
  datatype RegisterError = UsernameTooShort | InvalidEmail | PasswordTooShort | AlreadyRegistered
  {
    function Message(): string
    {
      match this
      case UsernameTooShort => "Username must be at least 3 characters"
      case InvalidEmail => "Invalid email address"
      case PasswordTooShort => "Password must be at least 6 characters"
      case AlreadyRegistered => "Username or email already registered"
    }
  }

  const MinUsernameLength := 3
  const MinPasswordLength := 6

  /** The demonstration account seeded into an empty store. */
  function TestUser(now: nat): User
  {
    User("testuser", "testuser@example.com", "password123", now)
  }

  // ---------------------------------------------------------------------
  // Invariant

  predicate SameUsername(u: User, username: string)
  {
    ToLower(u.username) == ToLower(username)
  }

  predicate SameEmail(u: User, email: string)
  {
    ToLower(u.email) == ToLower(email)
  }

  /** No two records share a case-folded username or a case-folded email. */
  ghost predicate Unique(users: seq<User>)
  {
    forall i, j :: 0 <= i < j < |users| ==>
      !SameUsername(users[i], users[j].username) && !SameEmail(users[i], users[j].email)
  }

  // ---------------------------------------------------------------------
  // Construction

  function LoadUsers(stored: Stored): seq<User>
  {
    if stored.Parsed? then stored.records else []
  }

  /** The constructor: load, and seed the test account when nothing usable
      was loaded. Either way the snapshot mirrors the list afterwards. */
  function Create(stored: Stored, now: nat): (db: Store)
    ensures db.saved == Some(db.users)
    ensures |LoadUsers(stored)| > 0 ==> db.users == stored.records
    ensures |LoadUsers(stored)| == 0 ==> db.users == [TestUser(now)]
  {
    var loaded := LoadUsers(stored);
    if |loaded| == 0 then Store([TestUser(now)], Some([TestUser(now)])) else Store(loaded, Some(loaded))
  }

  // ---------------------------------------------------------------------
  // Registration

  /** The three input checks, first failure wins: username (empty or shorter
      than three after trimming), then e-mail shape, then password length.
      Lengths are JavaScript lengths, in UTF-16 code units. */
  function CheckInput(username: string, email: string, password: string): (r: Option<RegisterError>)
    ensures r == Some(UsernameTooShort) <==> Utf16Length(Trim(username)) < MinUsernameLength
    ensures r == Some(InvalidEmail) <==> Utf16Length(Trim(username)) >= MinUsernameLength && !IsValidEmail(email)
    ensures r == Some(PasswordTooShort) <==>
      Utf16Length(Trim(username)) >= MinUsernameLength && IsValidEmail(email) && Utf16Length(password) < MinPasswordLength
    ensures r.Some? ==> r.value != AlreadyRegistered
  {
    var nameLength := Utf16Length(Trim(username));
    var emailOk := IsValidEmail(email);
    var passwordLength := Utf16Length(password);
    if username == "" || nameLength < MinUsernameLength then Some(UsernameTooShort)
    else if email == "" || !emailOk then Some(InvalidEmail)
    else if password == "" || passwordLength < MinPasswordLength then Some(PasswordTooShort)
    else None
  }

  /** `userExists`: some record matches the username or the e-mail up to case. */
  function UserExists(users: seq<User>, username: string, email: string): (b: bool)
    ensures b <==> exists i :: 0 <= i < |users| && (SameUsername(users[i], username) || SameEmail(users[i], email))
  {
    var r := FindFirst(users, u => SameUsername(u, username) || SameEmail(u, email));
    assert r.Some? ==> SameUsername(users[r.value], username) || SameEmail(users[r.value], email);
    r.Some?
  }

  /** The record a successful registration appends: folded username and
      e-mail (the username is not trimmed), password kept as given. */
  function NewRecord(username: string, email: string, password: string, now: nat): User
  {
    User(ToLower(username), ToLower(email), password, now)
  }

  datatype RegisterOutcome = Registered | Rejected(reason: RegisterError)

  /** The object `registerUser` returns: `{ success, error? }`. */
  datatype RegisterReply = RegisterReply(success: bool, error: Option<string>)

  /** The reply for an outcome: success without an error, or failure with
      the reason's message. */
  function Reply(outcome: RegisterOutcome): (r: RegisterReply)
    ensures r.success <==> outcome == Registered
    ensures r.error.None? <==> r.success
    ensures outcome.Rejected? ==> r.error == Some(outcome.reason.Message())
  {
    match outcome
    case Registered => RegisterReply(true, None)
    case Rejected(reason) => RegisterReply(false, Some(reason.Message()))
  }

  /** The four messages differ, so a caller reading `error` can tell which
      check refused the registration. */
  lemma MessagesIdentifyReason(a: RegisterError, b: RegisterError)
    requires a.Message() == b.Message()
    ensures a == b
  {
  }

  /** `registerUser`: refuse with the first failing check, then with a
      conflict, and otherwise append one record and persist the whole list. */
  function RegisterUser(db: Store, username: string, email: string, password: string, now: nat)
    : (r: (Store, RegisterOutcome))
    ensures CheckInput(username, email, password).Some? ==>
      r == (db, Rejected(CheckInput(username, email, password).value))
    ensures CheckInput(username, email, password).None? && UserExists(db.users, username, email) ==>
      r == (db, Rejected(AlreadyRegistered))
    ensures r.1 == Registered <==>
      CheckInput(username, email, password).None? && !UserExists(db.users, username, email)
    ensures r.1 == Registered ==>
      r.0.users == db.users + [NewRecord(username, email, password, now)] && r.0.saved == Some(r.0.users)
  {
    match CheckInput(username, email, password)
    case Some(e) => (db, Rejected(e))
    case None =>
      if UserExists(db.users, username, email) then (db, Rejected(AlreadyRegistered))
      else
        var users := db.users + [NewRecord(username, email, password, now)];
        (Store(users, Some(users)), Registered)
  }

  /** Registration keeps every record case-insensitively unique. */
  lemma RegisterPreservesUnique(db: Store, username: string, email: string, password: string, now: nat)
    requires Unique(db.users)
    ensures Unique(RegisterUser(db, username, email, password, now).0.users)
  {
    var r := RegisterUser(db, username, email, password, now);
    if r.1 == Registered {
      var users := r.0.users;
      var n := |db.users|;
      ToLowerIdempotent(username);
      ToLowerIdempotent(email);
      forall i, j | 0 <= i < j < |users|
        ensures !SameUsername(users[i], users[j].username) && !SameEmail(users[i], users[j].email)
      {
        if j == n {
          assert users[i] == db.users[i];
          assert !(SameUsername(db.users[i], username) || SameEmail(db.users[i], email));
        } else {
          assert users[i] == db.users[i] && users[j] == db.users[j];
        }
      }
    }
  }

  // ---------------------------------------------------------------------
  // Lookups

  predicate CredentialsMatch(u: User, username: string, password: string)
  {
    SameUsername(u, username) && u.password == password
  }

  /** `validateCredentials`: the first record whose username matches up to
      case and whose password matches exactly, returned without its password;
      nothing when no record matches both. */
  function ValidateCredentials(db: Store, username: string, password: string): (r: Option<UserView>)
    ensures r.None? <==> forall i :: 0 <= i < |db.users| ==> !CredentialsMatch(db.users[i], username, password)
    ensures r.Some? ==> (exists i :: 0 <= i < |db.users| && CredentialsMatch(db.users[i], username, password) &&
                          r.value == Public(db.users[i]) &&
                          forall j :: 0 <= j < i ==> !CredentialsMatch(db.users[j], username, password))
  {
    match FindFirst(db.users, u => CredentialsMatch(u, username, password))
    case None => None
    case Some(i) => Some(Public(db.users[i]))
  }

  /** `getUserByUsername`: the first record whose username matches up to case. */
  function GetUserByUsername(db: Store, username: string): (r: Option<UserView>)
    ensures r.None? <==> forall i :: 0 <= i < |db.users| ==> !SameUsername(db.users[i], username)
    ensures r.Some? ==> (exists i :: 0 <= i < |db.users| && SameUsername(db.users[i], username) &&
                          r.value == Public(db.users[i]) &&
                          forall j :: 0 <= j < i ==> !SameUsername(db.users[j], username))
  {
    match FindFirst(db.users, u => SameUsername(u, username))
    case None => None
    case Some(i) => Some(Public(db.users[i]))
  }

  /** `getAllUsers`: every record, in order, without its password. */
  function GetAllUsers(db: Store): (r: seq<UserView>)
    ensures |r| == |db.users|
    ensures forall i :: 0 <= i < |r| ==>
              r[i].username == db.users[i].username && r[i].email == db.users[i].email &&
              r[i].createdAt == db.users[i].createdAt
  {
    seq(|db.users|, i requires 0 <= i < |db.users| => Public(db.users[i]))
  }

  /** `clearAllUsers`: empties the list and removes the persisted key. The
      constructor does not run again, so no test account comes back. */
  function ClearAllUsers(db: Store): (r: Store)
    ensures forall u, p :: ValidateCredentials(r, u, p).None?
    ensures GetAllUsers(r) == []
    ensures r.saved.None?
  {
    Store([], None)
  }

  // ---------------------------------------------------------------------
  // Properties relating several operations

  /** Round trip: once `registerUser(u, e, p)` succeeds, signing in with any
      case variant of `u` and the same password finds exactly the new record. */
  lemma RegisterThenValidate(db: Store, username: string, email: string, password: string, now: nat, login: string)
    requires RegisterUser(db, username, email, password, now).1 == Registered
    requires ToLower(login) == ToLower(username)
    ensures ValidateCredentials(RegisterUser(db, username, email, password, now).0, login, password)
      == Some(UserView(ToLower(username), ToLower(email), now))
  {
    var db' := RegisterUser(db, username, email, password, now).0;
    var n := |db.users|;
    ToLowerIdempotent(username);
    assert CredentialsMatch(db'.users[n], login, password);
    forall j | 0 <= j < n ensures !CredentialsMatch(db'.users[j], login, password) {
      assert db'.users[j] == db.users[j];
      assert !SameUsername(db.users[j], username);
    }
    var r := ValidateCredentials(db', login, password);
    var i :| 0 <= i < |db'.users| && CredentialsMatch(db'.users[i], login, password) &&
      r.value == Public(db'.users[i]) &&
      forall j :: 0 <= j < i ==> !CredentialsMatch(db'.users[j], login, password);
    assert i == n;
  }

  /** Registering the same username or e-mail again, in any case, is refused
      as a conflict once the inputs themselves are acceptable. */
  lemma RegisterTwiceConflicts(db: Store, username: string, email: string, password: string, now: nat,
                               username2: string, email2: string, password2: string, now2: nat)
    requires RegisterUser(db, username, email, password, now).1 == Registered
    requires CheckInput(username2, email2, password2).None?
    requires ToLower(username2) == ToLower(username) || ToLower(email2) == ToLower(email)
    ensures RegisterUser(RegisterUser(db, username, email, password, now).0, username2, email2, password2, now2).1
      == Rejected(AlreadyRegistered)
  {
    var db' := RegisterUser(db, username, email, password, now).0;
    var added := db'.users[|db.users|];
    assert added == NewRecord(username, email, password, now);
    ToLowerIdempotent(username);
    ToLowerIdempotent(email);
    assert SameUsername(added, username2) || SameEmail(added, email2);
    assert UserExists(db'.users, username2, email2);
  }

  /** A successful registration extends `getAllUsers` by exactly the new
      record's view: folded username and e-mail, and the creation time. */
  lemma RegisterExtendsAllUsers(db: Store, username: string, email: string, password: string, now: nat)
    requires RegisterUser(db, username, email, password, now).1 == Registered
    ensures GetAllUsers(RegisterUser(db, username, email, password, now).0)
      == GetAllUsers(db) + [UserView(ToLower(username), ToLower(email), now)]
  {
    var after := GetAllUsers(RegisterUser(db, username, email, password, now).0);
    var expected := GetAllUsers(db) + [UserView(ToLower(username), ToLower(email), now)];
    assert |after| == |expected|;
    forall i | 0 <= i < |after| ensures after[i] == expected[i] {
    }
  }

  /** One registration request, as a sign-up form submits it. */
  datatype Registration = Registration(username: string, email: string, password: string, now: nat)

  /** Runs the requests one after another; refused ones leave the store as
      it was. */
  function RegisterAll(db: Store, requests: seq<Registration>): Store
    decreases |requests|
  {
    if |requests| == 0 then db
    else
      var q := requests[0];
      RegisterAll(RegisterUser(db, q.username, q.email, q.password, q.now).0, requests[1..])
  }

  /** Uniqueness survives any sequence of registrations. */
  lemma {:induction false} RegisterAllPreservesUnique(db: Store, requests: seq<Registration>)
    requires Unique(db.users)
    ensures Unique(RegisterAll(db, requests).users)
    decreases |requests|
  {
    if |requests| > 0 {
      var q := requests[0];
      RegisterPreservesUnique(db, q.username, q.email, q.password, q.now);
      RegisterAllPreservesUnique(RegisterUser(db, q.username, q.email, q.password, q.now).0, requests[1..]);
    }
  }

  /** A password that no record with a matching username holds is refused. */
  lemma WrongPasswordRefused(db: Store, username: string, password: string)
    requires forall i :: 0 <= i < |db.users| && SameUsername(db.users[i], username) ==> db.users[i].password != password
    ensures ValidateCredentials(db, username, password).None?
  {
  }

  /** A store that loaded nothing usable holds exactly the test account, and
      its documented credentials sign in. */
  lemma EmptyLoadSeedsTestUser(stored: Stored, now: nat)
    requires stored.Absent? || stored.Corrupt? || stored == Parsed([])
    ensures Create(stored, now).users == [TestUser(now)]
    ensures ValidateCredentials(Create(stored, now), "testuser", "password123")
      == Some(UserView("testuser", "testuser@example.com", now))
  {
  }

  /** The seeded store satisfies the uniqueness invariant, and so does every
      store reached from it by registrations. */
  lemma SeededStoreIsUnique(now: nat, requests: seq<Registration>)
    ensures Unique(Create(Absent, now).users)
    ensures Unique(RegisterAll(Create(Absent, now), requests).users)
  {
    assert Unique(Create(Absent, now).users);
    RegisterAllPreservesUnique(Create(Absent, now), requests);
  }

  /** Password length is JavaScript's: three characters outside the Basic
      Multilingual Plane are six code units, long enough for the check. */
  lemma AstralPasswordAccepted()
    ensures |"\U{1F600}\U{1F600}\U{1F600}"| == 3
    ensures CheckInput("alice", "alice@x.com", "\U{1F600}\U{1F600}\U{1F600}").None?
  {
    var p := "\U{1F600}\U{1F600}\U{1F600}";
    assert forall i :: 0 <= i < |p| ==> p[i] == '\U{1F600}';
    AliceShapedInputAcceptable("alice", "alice@x.com", p);
  }

  /** The worked example: on an empty store 'alice' registers, signs in as
      'ALICE', is refused with a wrong password, and cannot register the
      same name again under another e-mail. */
  lemma AliceScenario(now: nat, later: nat)
    ensures RegisterUser(Store([], None), "alice", "alice@x.com", "secret1", now).1 == Registered
    ensures var db := RegisterUser(Store([], None), "alice", "alice@x.com", "secret1", now).0;
      && ValidateCredentials(db, "ALICE", "secret1") == Some(UserView("alice", "alice@x.com", now))
      && ValidateCredentials(db, "alice", "wrong").None?
      && RegisterUser(db, "alice", "other@x.com", "secret1", later).1 == Rejected(AlreadyRegistered)
  {
    AliceRegisters(now);
    AliceSignsIn(now);
    AliceConflicts(now, later);
  }

  // The lemmas from here to the end of the module exist only to keep
  // AliceScenario and AstralPasswordAccepted within the solver's budget on
  // every seed: each proves one step of them on the concrete strings, and
  // none states anything further.

  lemma AliceSignsIn(now: nat)
    ensures var alice := User("alice", "alice@x.com", "secret1", now);
      && ValidateCredentials(Store([alice], Some([alice])), "ALICE", "secret1") == Some(UserView("alice", "alice@x.com", now))
      && ValidateCredentials(Store([alice], Some([alice])), "alice", "wrong").None?
  {
    AliceFolds();
    var alice := User("alice", "alice@x.com", "secret1", now);
    assert CredentialsMatch(alice, "ALICE", "secret1");
    assert !CredentialsMatch(alice, "alice", "wrong");
  }

  lemma AliceConflicts(now: nat, later: nat)
    ensures var alice := User("alice", "alice@x.com", "secret1", now);
      RegisterUser(Store([alice], Some([alice])), "alice", "other@x.com", "secret1", later).1 == Rejected(AlreadyRegistered)
  {
    SecondAliceInputAcceptable();
    var alice := User("alice", "alice@x.com", "secret1", now);
    assert SameUsername(alice, "alice");
    assert UserExists([alice], "alice", "other@x.com");
  }

  lemma AliceRegisters(now: nat)
    ensures var alice := User("alice", "alice@x.com", "secret1", now);
      RegisterUser(Store([], None), "alice", "alice@x.com", "secret1", now) == (Store([alice], Some([alice])), Registered)
  {
    FirstAliceInputAcceptable();
    AliceFolds();
    FirstRegistrationSucceeds("alice", "alice@x.com", "secret1", now);
  }

  /** On an empty store every acceptable registration succeeds, leaving
      exactly the new record. */
  lemma FirstRegistrationSucceeds(username: string, email: string, password: string, now: nat)
    requires CheckInput(username, email, password).None?
    ensures var users := [NewRecord(username, email, password, now)];
      RegisterUser(Store([], None), username, email, password, now) == (Store(users, Some(users)), Registered)
  {
    assert [] + [NewRecord(username, email, password, now)] == [NewRecord(username, email, password, now)];
  }

  lemma FirstAliceInputAcceptable()
    ensures CheckInput("alice", "alice@x.com", "secret1").None?
  {
    AliceShapedInputAcceptable("alice", "alice@x.com", "secret1");
  }

  lemma SecondAliceInputAcceptable()
    ensures CheckInput("alice", "other@x.com", "secret1").None?
  {
    AliceShapedInputAcceptable("alice", "other@x.com", "secret1");
  }

  lemma AliceFolds()
    ensures ToLower("ALICE") == "alice" && ToLower("alice") == "alice" && ToLower("alice@x.com") == "alice@x.com"
  {
    FoldsAlike("ALICE", "alice");
    FoldsAlike("alice", "alice");
    FoldsAlike("alice@x.com", "alice@x.com");
  }

  /** Folding `a` character by character yields `b`. */
  lemma FoldsAlike(a: string, b: string)
    requires |a| == |b| && forall i :: 0 <= i < |a| ==> ToLowerChar(a[i]) == b[i] && !IsAsciiUpper(b[i])
    ensures ToLower(a) == b
  {
  }

  /** The example's inputs pass every check: a blank-free username of at
      least three characters, an e-mail shaped like `alice@x.com` (eleven
      characters, '@' at 5, '.' at 7) and a password of at least six. */
  lemma AliceShapedInputAcceptable(username: string, email: string, password: string)
    requires |username| >= 3 && forall i :: 0 <= i < |username| ==> !IsWhitespace(username[i])
    requires |email| == 11 && email[5] == '@' && email[7] == '.' &&
      forall k :: 0 <= k < |email| && k != 5 ==> IsAtom(email[k])
    requires Utf16Length(password) >= 6
    ensures CheckInput(username, email, password).None?
  {
    assert MatchesEmailPattern(email);
    assert Trim(username) == username;
  }
}
