/** The service's operations (src/app.py), each a transition of the whole in-memory state. */
module App {
  import opened Wrappers
  import opened Sequences
  import opened Http
  import opened Models
  import Passwords
  import Jose
  import Auth
  import Roster

  /** Only addresses of the school's own domain may register. */
  const SchoolDomain: string := "@mergington.edu"

  /** The `users_db` and `activities` dicts together. */
  datatype AppState = AppState(users: Auth.UserDb, activities: Roster.Activities) {

    /** The invariants every operation keeps. */
    predicate Valid() {
      users.Valid() && Roster.RosterValid(activities)
    }
  }

  /** The state at start-up: the bootstrap administrator and the nine seeded activities. */
  function InitialState(salt: string): (s: AppState)
    ensures s.Valid()
    ensures s.users.records.Keys == {Auth.AdminEmail}
    ensures s.activities == Roster.SeedActivities
  {
    Roster.SeedActivitiesValid();
    Roster.SeedChessClub();
    AppState(Auth.InitialUsers(salt), Roster.SeedActivities)
  }

  /** `register(user_data)`: three checks in order (email taken, foreign domain,
      teacher or administrator role), then a new active record with a digest of the
      password. `salt` is the randomness the digest is made with. */
  function Register(s: AppState, data: UserCreate, salt: string): (r: Result<(AppState, User)>)
    ensures data.email in s.users.records ==> r == Err(EmailAlreadyRegistered)
    ensures (data.email !in s.users.records && !EndsWith(data.email, SchoolDomain))
              ==> r == Err(EmailDomainNotAllowed)
    ensures (data.email !in s.users.records && EndsWith(data.email, SchoolDomain) && data.role in {Teacher, Admin})
              ==> r == Err(SelfRegistrationForbidden)
    ensures r.Ok? <==> data.email !in s.users.records && EndsWith(data.email, SchoolDomain) && data.role == Student
    ensures r.Ok? ==> r.value.0.activities == s.activities
    ensures r.Ok? ==> r.value.0.users.records.Keys == s.users.records.Keys + {data.email}
    ensures r.Ok? ==> r.value.0.users.order == s.users.order + [data.email]
    ensures r.Ok? ==> forall e :: e in s.users.records ==> r.value.0.users.records[e] == s.users.records[e]
    ensures r.Ok? ==> var record := r.value.0.users.records[data.email];
              && record.email == data.email && record.fullName == data.fullName
              && record.role == Student && record.isActive
              && Passwords.VerifyPassword(data.password, record.hashedPassword)
    ensures r.Ok? ==> r.value.1 == r.value.0.users.records[data.email].Public()
  {
    if data.email in s.users.records then Err(EmailAlreadyRegistered)
    else if !EndsWith(data.email, SchoolDomain) then Err(EmailDomainNotAllowed)
    else if data.role in [Teacher, Admin] then Err(SelfRegistrationForbidden)
    else
      assert data.role == Student by {
        assert data.role != Teacher && data.role != Admin;
      }
      var record := Auth.UserRecord(data.email, data.fullName,
                                    Passwords.GetPasswordHash(data.password, salt), data.role, true);
      var users := Auth.UserDb(s.users.records[data.email := record], s.users.order + [data.email]);
      Ok((s.(users := users), User(data.email, data.fullName, data.role, true)))
  }

  /** `login(user_credentials)` at time `now`: bad credentials are a 401 whatever the
      account's state; an inactive account is a 403 only once the password checks
      out; otherwise an eight-hour token naming the user and their stored role. */
  function Login(s: AppState, creds: UserLogin, now: int): (r: Result<Token>)
    ensures Auth.AuthenticateUser(s.users, creds.email, creds.password).None? ==> r == Err(IncorrectCredentials)
    ensures (creds.email !in s.users.records
             || !Passwords.VerifyPassword(creds.password, s.users.records[creds.email].hashedPassword))
              ==> r == Err(IncorrectCredentials)
    ensures (&& creds.email in s.users.records
             && Passwords.VerifyPassword(creds.password, s.users.records[creds.email].hashedPassword)
             && !s.users.records[creds.email].isActive)
              ==> r == Err(AccountInactive)
    ensures r.Ok? <==> (&& creds.email in s.users.records
                        && Passwords.VerifyPassword(creds.password, s.users.records[creds.email].hashedPassword)
                        && s.users.records[creds.email].isActive)
    ensures r.Ok? ==> var user, token := s.users.records[creds.email], r.value.accessToken;
              && r.value.tokenType == "bearer"
              && token.Signed? && token.key == Auth.SecretKey && token.alg == Auth.Algorithm
              && token.payload.claims == map["sub" := user.email, "role" := user.role.Value()]
              && token.payload.exp == now + Auth.AccessTokenExpireMinutes * Auth.SecondsPerMinute
  {
    match Auth.AuthenticateUser(s.users, creds.email, creds.password)
    case None => Err(IncorrectCredentials)
    case Some(user) =>
      if !user.isActive then Err(AccountInactive)
      else
        var expires := Auth.AccessTokenExpireMinutes * Auth.SecondsPerMinute;
        var token := Auth.CreateAccessToken(map["sub" := user.email, "role" := user.role.Value()], Some(expires), now);
        Ok(Token(token, "bearer"))
  }

  /** `get_me`: the caller's live record, without its password digest. */
  function GetMe(s: AppState, token: Jose.Jwt, now: int): (r: Result<User>)
    ensures Auth.GetCurrentUser(s.users, token, now).Err? ==> r == Err(Auth.GetCurrentUser(s.users, token, now).error)
    ensures Auth.GetCurrentUser(s.users, token, now).Ok? ==>
              var user := Auth.GetCurrentUser(s.users, token, now).value;
              r.Ok? && r.value.email == user.email && r.value.fullName == user.fullName
              && r.value.role == user.role && r.value.isActive == user.isActive
  {
    var user :- Auth.GetCurrentUser(s.users, token, now);
    Ok(User(user.email, user.fullName, user.role, user.isActive))
  }

  /** The public views of the records under `keys`, in that order. */
  function PublicProfiles(records: map<string, Auth.UserRecord>, keys: seq<string>): (us: seq<User>)
    requires forall i :: 0 <= i < |keys| ==> keys[i] in records
    ensures |us| == |keys|
    ensures forall i :: 0 <= i < |keys| ==> us[i] == records[keys[i]].Public()
  {
    if keys == [] then []
    else [records[keys[0]].Public()] + PublicProfiles(records, keys[1..])
  }

  /** `get_all_users` for an administrator's token: every user once, in
      registration order, with no password digest. */
  function GetAllUsers(s: AppState, token: Jose.Jwt, now: int): (r: Result<seq<User>>)
    requires s.users.Valid()
    ensures Auth.GetCurrentAdmin(s.users, token, now).Err? ==> r == Err(Auth.GetCurrentAdmin(s.users, token, now).error)
    ensures r.Ok? <==> Auth.GetCurrentAdmin(s.users, token, now).Ok?
    ensures r.Ok? ==> |r.value| == |s.users.order| == |s.users.records|
    ensures r.Ok? ==> forall i :: 0 <= i < |r.value| ==> r.value[i] == s.users.records[s.users.order[i]].Public()
    ensures r.Ok? ==> forall e :: e in s.users.records ==> s.users.records[e].Public() in r.value
  {
    var _ :- Auth.GetCurrentAdmin(s.users, token, now);
    var listing := PublicProfiles(s.users.records, s.users.order);
    NoDuplicatesCardinality(s.users.order);
    assert (set e | e in s.users.order) == s.users.records.Keys;
    assert forall e :: e in s.users.records ==> s.users.records[e].Public() in listing by {
      forall e | e in s.users.records
        ensures s.users.records[e].Public() in listing
      {
        var i :| 0 <= i < |s.users.order| && s.users.order[i] == e;
        assert listing[i] == s.users.records[e].Public();
      }
    }
    Ok(listing)
  }

  /** `get_activities`: any authenticated caller sees every activity as stored. */
  function GetActivities(s: AppState, token: Jose.Jwt, now: int): (r: Result<Roster.Activities>)
    ensures r.Ok? <==> Auth.GetCurrentUser(s.users, token, now).Ok?
    ensures r.Err? ==> r.error == Auth.GetCurrentUser(s.users, token, now).error
    ensures r.Ok? ==> r.value == s.activities
  {
    var _ :- Auth.GetCurrentUser(s.users, token, now);
    Ok(s.activities)
  }

  /** `signup_for_activity` for the bearer of `token`: the caller is resolved first,
      then the roster rules apply; only the activities change. */
  function SignupForActivity(s: AppState, token: Jose.Jwt, name: string, now: int): (r: Result<(AppState, string)>)
    ensures Auth.GetCurrentUser(s.users, token, now).Err? ==> r == Err(Auth.GetCurrentUser(s.users, token, now).error)
    ensures Auth.GetCurrentUser(s.users, token, now).Ok? ==>
              var outcome := Roster.Signup(s.activities, Auth.GetCurrentUser(s.users, token, now).value, name);
              && (outcome.Err? ==> r == Err(outcome.error))
              && (outcome.Ok? ==> r.Ok? && r.value.0.activities == outcome.value)
    ensures r.Ok? ==> r.value.0.users == s.users
    ensures r.Ok? ==> r.value.1 == "Successfully signed up for " + name
  {
    var user :- Auth.GetCurrentUser(s.users, token, now);
    var activities :- Roster.Signup(s.activities, user, name);
    Ok((s.(activities := activities), "Successfully signed up for " + name))
  }

  /** `unregister_from_activity` for the bearer of `token`; only the activities change. */
  function UnregisterFromActivity(s: AppState, token: Jose.Jwt, name: string, now: int): (r: Result<(AppState, string)>)
    ensures Auth.GetCurrentUser(s.users, token, now).Err? ==> r == Err(Auth.GetCurrentUser(s.users, token, now).error)
    ensures Auth.GetCurrentUser(s.users, token, now).Ok? ==>
              var outcome := Roster.Unregister(s.activities, Auth.GetCurrentUser(s.users, token, now).value, name);
              && (outcome.Err? ==> r == Err(outcome.error))
              && (outcome.Ok? ==> r.Ok? && r.value.0.activities == outcome.value)
    ensures r.Ok? ==> r.value.0.users == s.users
    ensures r.Ok? ==> r.value.1 == "Successfully unregistered from " + name
  {
    var user :- Auth.GetCurrentUser(s.users, token, now);
    var activities :- Roster.Unregister(s.activities, user, name);
    Ok((s.(activities := activities), "Successfully unregistered from " + name))
  }

  /** A successful registration keeps the store's invariants. */
  lemma RegisterPreservesValid(s: AppState, data: UserCreate, salt: string)
    requires s.Valid()
    requires Register(s, data, salt).Ok?
    ensures Register(s, data, salt).value.0.Valid()
  {
  }

  /** Signup and unregister through the service keep the store's invariants. */
  lemma RosterOperationsPreserveValid(s: AppState, token: Jose.Jwt, name: string, now: int)
    requires s.Valid()
    ensures SignupForActivity(s, token, name, now).Ok? ==> SignupForActivity(s, token, name, now).value.0.Valid()
    ensures UnregisterFromActivity(s, token, name, now).Ok? ==> UnregisterFromActivity(s, token, name, now).value.0.Valid()
  {
    var user := Auth.GetCurrentUser(s.users, token, now);
    if user.Ok? {
      if Roster.Signup(s.activities, user.value, name).Ok? {
        Roster.SignupPreservesRosterValid(s.activities, user.value, name);
      }
      if Roster.Unregister(s.activities, user.value, name).Ok? {
        Roster.UnregisterPreservesRosterValid(s.activities, user.value, name);
      }
    }
  }

  /** Signing up and then unregistering with the same token restores the state. */
  lemma SignupUnregisterRestoresState(s: AppState, token: Jose.Jwt, name: string, now: int)
    requires SignupForActivity(s, token, name, now).Ok?
    ensures UnregisterFromActivity(SignupForActivity(s, token, name, now).value.0, token, name, now).Ok?
    ensures UnregisterFromActivity(SignupForActivity(s, token, name, now).value.0, token, name, now).value.0 == s
  {
    var user := Auth.GetCurrentUser(s.users, token, now).value;
    Roster.SignupUnregisterRoundTrip(s.activities, user, name);
  }

  /** A token from a successful login resolves, for its whole eight-hour life, to
      the caller's stored record. */
  lemma LoginThenWhoAmI(s: AppState, creds: UserLogin, now: int, at: int)
    requires s.users.Valid()
    requires Login(s, creds, now).Ok?
    requires now <= at <= now + Auth.AccessTokenExpireMinutes * Auth.SecondsPerMinute
    ensures Auth.GetCurrentUser(s.users, Login(s, creds, now).value.accessToken, at) == Ok(s.users.records[creds.email])
    ensures GetMe(s, Login(s, creds, now).value.accessToken, at) == Ok(s.users.records[creds.email].Public())
  {
  }

  /** A freshly registered student can log in with the password they chose, and the
      token names them as a student. */
  lemma RegisterThenLogin(s: AppState, data: UserCreate, salt: string, now: int)
    requires Register(s, data, salt).Ok?
    ensures var s' := Register(s, data, salt).value.0;
            var r := Login(s', UserLogin(data.email, data.password), now);
            r.Ok? && r.value.accessToken.payload.claims == map["sub" := data.email, "role" := "student"]
  {
  }

  /** The bootstrap administrator can log in with the seeded password and list the
      users, which at start-up are the administrator alone. */
  lemma AdminListsUsers(salt: string, now: int)
    ensures var s := InitialState(salt);
            var login := Login(s, UserLogin(Auth.AdminEmail, Auth.AdminPassword), now);
            && login.Ok?
            && GetAllUsers(s, login.value.accessToken, now)
                 == Ok([User(Auth.AdminEmail, "System Administrator", Admin, true)])
  {
    var s := InitialState(salt);
    var creds := UserLogin(Auth.AdminEmail, Auth.AdminPassword);
    assert s.users == Auth.InitialUsers(salt);
    var admin := s.users.records[Auth.AdminEmail];
    assert admin.fullName == "System Administrator";
    assert admin.role == Admin && admin.isActive;
    assert Passwords.VerifyPassword(Auth.AdminPassword, admin.hashedPassword);
    assert Login(s, creds, now).Ok?;
    LoginThenWhoAmI(s, creds, now, now);
    var token := Login(s, creds, now).value.accessToken;
    assert Auth.GetCurrentAdmin(s.users, token, now).Ok?;
    assert s.users.order == [Auth.AdminEmail];
    var listing := GetAllUsers(s, token, now).value;
    assert |listing| == 1;
    assert listing[0] == admin.Public();
    assert listing == [User(Auth.AdminEmail, "System Administrator", Admin, true)];
    assert GetAllUsers(s, token, now) == Ok(listing);
  }

  /** A student's token, however valid, does not list the users. */
  lemma StudentCannotListUsers(s: AppState, creds: UserLogin, now: int)
    requires s.users.Valid()
    requires Login(s, creds, now).Ok?
    requires s.users.records[creds.email].role == Student
    ensures GetAllUsers(s, Login(s, creds, now).value.accessToken, now) == Err(PermissionDenied)
  {
  }

  /** An expired login token is refused by the identity guard before any role
      check: the user listing answers 401, not 403. */
  lemma ExpiredTokenCannotListUsers(s: AppState, creds: UserLogin, issued: int, now: int)
    requires s.users.Valid()
    requires Login(s, creds, issued).Ok?
    requires now > issued + Auth.AccessTokenExpireMinutes * Auth.SecondsPerMinute
    ensures GetAllUsers(s, Login(s, creds, issued).value.accessToken, now) == Err(CouldNotValidateCredentials)
  {
  }
}
