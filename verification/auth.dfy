/** Credential storage, token issuance and the identity and role guards (src/auth.py). */
module Auth {
  import opened Wrappers
  import opened Sequences
  import opened Http
  import opened Models
  import Passwords
  import Jose

  const SecretKey: string := "mergington_high_school_secret_key_change_in_production"
  const Algorithm: string := "HS256"

  /** Lifetime of a login token: eight hours. */
  const AccessTokenExpireMinutes: int := 480
  /** Lifetime `create_access_token` falls back to without a (non-zero) duration. */
  const DefaultExpireMinutes: int := 15
  const SecondsPerMinute: int := 60

  const AdminEmail: string := "admin@mergington.edu"
  const AdminPassword: string := "admin123"

  /** A stored user, as kept in `users_db`: unlike `User`, it holds the digest. */
  datatype UserRecord = UserRecord(
    email: string,
    fullName: string,
    hashedPassword: Passwords.PasswordHash,
    role: UserRole,
    isActive: bool)
  {
    /** The record without its password digest. */
    function Public(): User {
      User(email, fullName, role, isActive)
    }
  }

  /** `users_db`: records keyed by email, and the dict's insertion order of keys. */
  datatype UserDb = UserDb(records: map<string, UserRecord>, order: seq<string>) {

    /** The order lists every key exactly once, and each record sits under its own email. */
    predicate Valid() {
      && NoDuplicates(order)
      && (forall i :: 0 <= i < |order| ==> order[i] in records)
      && (forall e :: e in records ==> e in order)
      && (forall e :: e in records ==> records[e].email == e)
    }
  }

  /** The store at start-up: the bootstrap administrator only. `salt` is the
      salt the digest of the administrator's password was made with. */
  function InitialUsers(salt: string): (db: UserDb)
    ensures db.Valid()
    ensures db.records.Keys == {AdminEmail} && db.order == [AdminEmail]
    ensures db.records[AdminEmail].role == Admin && db.records[AdminEmail].isActive
    ensures Passwords.VerifyPassword(AdminPassword, db.records[AdminEmail].hashedPassword)
  {
    var admin := UserRecord(AdminEmail, "System Administrator",
                            Passwords.GetPasswordHash(AdminPassword, salt), Admin, true);
    UserDb(map[AdminEmail := admin], [AdminEmail])
  }

  /** Python truthiness of an optional `timedelta` (in seconds): `None` and a
      zero duration are false; any other duration, negative ones included, is true. */
  predicate DurationGiven(expiresDelta: Option<int>) {
    expiresDelta.Some? && expiresDelta.value != 0
  }

  /** `create_access_token(data, expires_delta)` at time `now`: a signed token
      carrying a copy of `data` plus an `exp` claim, which replaces any `exp`
      already in `data`. */
  function CreateAccessToken(data: map<string, string>, expiresDelta: Option<int>, now: int): (t: Jose.Jwt)
    ensures t.Signed? && t.key == SecretKey && t.alg == Algorithm
    ensures forall k :: k in t.payload.claims <==> k in data && k != "exp"
    ensures forall k :: k in t.payload.claims ==> t.payload.claims[k] == data[k]
    ensures DurationGiven(expiresDelta) ==> t.payload.exp == now + expiresDelta.value
    ensures !DurationGiven(expiresDelta) ==> t.payload.exp == now + DefaultExpireMinutes * SecondsPerMinute
  {
    var expire :=
      if DurationGiven(expiresDelta) then now + expiresDelta.value
      else now + DefaultExpireMinutes * SecondsPerMinute;
    Jose.Encode(Jose.Payload(data - {"exp"}, expire), SecretKey, Algorithm)
  }

  /** `decode_access_token(token)` at time `now`. Every failure, whether from the
      library or from a missing subject, is the same 401; a missing `role` claim
      is allowed. */
  function DecodeAccessToken(token: Jose.Jwt, now: int): (r: Result<TokenData>)
    ensures r.Ok? <==> Jose.Decode(token, SecretKey, [Algorithm], now).Some? && "sub" in token.payload.claims
    ensures r.Err? ==> r.error == CouldNotValidateCredentials
    ensures r.Ok? ==> r.value.email == Some(token.payload.claims["sub"])
    ensures r.Ok? ==> (r.value.role.Some? <==> "role" in token.payload.claims)
    ensures r.Ok? && r.value.role.Some? ==> r.value.role.value == token.payload.claims["role"]
  {
    match Jose.Decode(token, SecretKey, [Algorithm], now)
    case None => Err(CouldNotValidateCredentials)
    case Some(payload) =>
      match Lookup(payload.claims, "sub")
      case None => Err(CouldNotValidateCredentials)
      case Some(email) => Ok(TokenData(Some(email), Lookup(payload.claims, "role")))
  }

  /** `authenticate_user(email, password)`: the stored record when the email is
      known and the password verifies; `None` stands for the function's `False`. */
  function AuthenticateUser(db: UserDb, email: string, password: string): (r: Option<UserRecord>)
    ensures r.Some? <==> email in db.records && Passwords.VerifyPassword(password, db.records[email].hashedPassword)
    ensures r.Some? ==> r.value == db.records[email]
  {
    match Lookup(db.records, email)
    case None => None
    case Some(user) =>
      if !Passwords.VerifyPassword(password, user.hashedPassword) then None
      else Some(user)
  }

  /** `get_current_user`: the live stored record of the token's subject. */
  function GetCurrentUser(db: UserDb, token: Jose.Jwt, now: int): (r: Result<UserRecord>)
    ensures DecodeAccessToken(token, now).Err? ==> r == Err(CouldNotValidateCredentials)
    ensures DecodeAccessToken(token, now).Ok? ==>
              var subject := token.payload.claims["sub"];
              r == if subject in db.records then Ok(db.records[subject]) else Err(UserNotFound)
  {
    var tokenData :- DecodeAccessToken(token, now);
    var user := if tokenData.email.Some? then Lookup(db.records, tokenData.email.value) else None;
    if user.None? then Err(UserNotFound) else Ok(user.value)
  }

  /** The check `require_role(allowed)` installs: the user passes unchanged
      exactly when their role is listed. */
  function RequireRole(allowed: seq<UserRole>, user: UserRecord): (r: Result<UserRecord>)
    ensures r.Ok? <==> user.role in allowed
    ensures r.Ok? ==> r.value == user
    ensures r.Err? ==> r.error == PermissionDenied
  {
    if user.role !in allowed then Err(PermissionDenied) else Ok(user)
  }

  /** The dependency `require_role(allowed)`: resolve the caller, then check the role. */
  function RoleChecker(allowed: seq<UserRole>, db: UserDb, token: Jose.Jwt, now: int): (r: Result<UserRecord>)
    ensures GetCurrentUser(db, token, now).Err? ==> r == GetCurrentUser(db, token, now)
    ensures GetCurrentUser(db, token, now).Ok? ==> r == RequireRole(allowed, GetCurrentUser(db, token, now).value)
  {
    var user :- GetCurrentUser(db, token, now);
    RequireRole(allowed, user)
  }

  /** `get_current_student`: no role check at all, so every authenticated user passes. */
  function GetCurrentStudent(db: UserDb, token: Jose.Jwt, now: int): (r: Result<UserRecord>)
    ensures r.Ok? <==> GetCurrentUser(db, token, now).Ok?
    ensures r.Ok? ==> r.value == GetCurrentUser(db, token, now).value
    ensures r.Err? ==> r.error == GetCurrentUser(db, token, now).error
  {
    GetCurrentUser(db, token, now)
  }

  /** `get_current_teacher`: admits teachers and administrators. */
  function GetCurrentTeacher(db: UserDb, token: Jose.Jwt, now: int): (r: Result<UserRecord>)
    ensures r.Ok? <==> GetCurrentUser(db, token, now).Ok? && GetCurrentUser(db, token, now).value.role in {Teacher, Admin}
    ensures r.Ok? ==> r.value == GetCurrentUser(db, token, now).value
    ensures GetCurrentUser(db, token, now).Ok? && GetCurrentUser(db, token, now).value.role == Student ==> r == Err(PermissionDenied)
    ensures GetCurrentUser(db, token, now).Err? ==> r == GetCurrentUser(db, token, now)
  {
    RoleChecker([Teacher, Admin], db, token, now)
  }

  /** `get_current_admin`: admits administrators only. */
  function GetCurrentAdmin(db: UserDb, token: Jose.Jwt, now: int): (r: Result<UserRecord>)
    ensures r.Ok? <==> GetCurrentUser(db, token, now).Ok? && GetCurrentUser(db, token, now).value.role == Admin
    ensures r.Ok? ==> r.value == GetCurrentUser(db, token, now).value
    ensures GetCurrentUser(db, token, now).Ok? && GetCurrentUser(db, token, now).value.role != Admin ==> r == Err(PermissionDenied)
    ensures GetCurrentUser(db, token, now).Err? ==> r == GetCurrentUser(db, token, now)
  {
    RoleChecker([Admin], db, token, now)
  }

  /** A token made by `CreateAccessToken` from a subject and, optionally, a role
      (the claims `login` signs) decodes, until its expiry,
      to exactly the subject and role it was given; from the next second on it is rejected. */
  lemma IssuedTokenDecodes(data: map<string, string>, expiresDelta: Option<int>, now: int, at: int)
    requires "sub" in data && data.Keys <= {"sub", "role"}
    ensures var t := CreateAccessToken(data, expiresDelta, now);
            DecodeAccessToken(t, at) ==
              if at <= t.payload.exp then Ok(TokenData(Some(data["sub"]), Lookup(data, "role")))
              else Err(CouldNotValidateCredentials)
  {
  }

  /** A zero (or absent) duration does not yield an expired token: it lives 15 minutes. */
  lemma ZeroDurationFallsBack(data: map<string, string>, now: int)
    requires "sub" in data && data.Keys <= {"sub", "role"}
    ensures DecodeAccessToken(CreateAccessToken(data, Some(0), now), now + 15 * 60).Ok?
    ensures DecodeAccessToken(CreateAccessToken(data, None, now), now + 15 * 60).Ok?
    ensures DecodeAccessToken(CreateAccessToken(data, Some(0), now), now + 15 * 60 + 1).Err?
  {
  }

  /** The guard never reads the token's `role` claim: two tokens that differ only
      in that claim resolve to the same user, or fail the same way. */
  lemma RoleClaimIgnored(db: UserDb, data: map<string, string>, role1: string, role2: string,
                         expiresDelta: Option<int>, issued: int, now: int)
    ensures GetCurrentUser(db, CreateAccessToken(data["role" := role1], expiresDelta, issued), now)
         == GetCurrentUser(db, CreateAccessToken(data["role" := role2], expiresDelta, issued), now)
  {
  }

  /** Authorization follows the live record: a token claiming `admin` does not
      admit a user whom the store holds as a student. */
  lemma StaleRoleClaimDoesNotElevate(db: UserDb, email: string, expiresDelta: Option<int>, issued: int, now: int)
    requires email in db.records && db.records[email].role == Student
    ensures GetCurrentAdmin(db, CreateAccessToken(map["sub" := email, "role" := "admin"], expiresDelta, issued), now).Err?
  {
  }

  /** Allow-lists are taken literally: no role implies another, so an administrator
      does not pass a student-only list. */
  lemma NoRoleHierarchy(user: UserRecord, role: UserRole)
    ensures RequireRole([role], user).Ok? <==> user.role == role
    ensures user.role == Admin ==> RequireRole([Student], user).Err?
  {
  }
}
